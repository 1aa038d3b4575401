/**
 The streaming upload of a file tree into the validation container: the byte stream the host prints, and the
 event-driven receiver that reads it back from arbitrary chunks under backpressure.
 */
module UploadCodec {
  import opened Common

  const HEADER_LIMIT := 1048576
  const NEWLINE: Byte := 10

  /** A JSON header after `JSON.parse`. A field of the wrong type (or no safe integer) is `None`. */
  datatype Header = Header(end: bool, path: Option<string>, directory: bool, size: Option<int>, mode: Option<int>)

  /** The header text codec: `JSON.stringify` on the host, `JSON.parse` (which may throw) in the receiver. */
  datatype Codec = Codec(render: Header -> Bytes, parse: Bytes -> Option<Header>)

  datatype Item = Directory(path: string) | File(path: string, mode: int, bytes: Bytes)

  const END_HEADER := Header(true, None, false, None, None)

  function HeaderOf(item: Item): Header {
    match item
    case Directory(path) => Header(false, Some(path), true, None, None)
    case File(path, mode, bytes) => Header(false, Some(path), false, Some(|bytes|), Some(mode))
  }

  function Body(item: Item): Bytes {
    if item.File? then item.bytes else []
  }

  /** One header line. */
  function Line(codec: Codec, h: Header): Bytes {
    codec.render(h) + [NEWLINE]
  }

  /** The stream for a list of entries, closed by the end record. */
  function Encode(codec: Codec, items: seq<Item>): Bytes {
    if items == [] then Line(codec, END_HEADER)
    else Line(codec, HeaderOf(items[0])) + Body(items[0]) + Encode(codec, items[1..])
  }

  // ---------------------------------------------------------------------------------------------------------
  // The receiver on values: one function per callback of the embedded script.

  /** An open write stream with the bytes still owed to it. */
  datatype Stream = Stream(path: string, mode: int, written: Bytes, left: nat)

  datatype Receiver = Receiver(
    buffer: Bytes,
    current: Option<Stream>,
    ended: bool,
    inputEnded: bool,
    paused: bool,
    pending: nat,
    failed: bool,
    stored: seq<Item>,
    writes: nat)

  const START := Receiver([], None, false, false, false, 0, false, [], 0)

  /** What `target` accepts: a relative path of ordinary segments without a backslash. */
  predicate TargetAccepts(path: string) {
    && path != ""
    && '\\' !in path
    && forall segment :: segment in Split(path, '/') ==> Ordinary(segment)
  }

  predicate Ordinary(segment: string) {
    segment != "" && segment != "." && segment != ".."
  }

  /** Walks a path from the place `at` below the root; `None` when it leaves the root. */
  function Walk(segments: seq<string>, at: seq<string>): Option<seq<string>> {
    if segments == [] then Some(at)
    else if segments[0] == "" || segments[0] == "." then Walk(segments[1..], at)
    else if segments[0] == ".." then if at == [] then None else Walk(segments[1..], at[..|at| - 1])
    else Walk(segments[1..], at + [segments[0]])
  }

  lemma {:induction false} WalkLength(segments: seq<string>, at: seq<string>)
    requires Walk(segments, at).Some?
    ensures |Walk(segments, at).value| <= |at| + |segments|
    ensures |Walk(segments, at).value| == |at| + |segments| ==> forall s :: s in segments ==> Ordinary(s)
  {
    if segments != [] {
      var s, rest := segments[0], segments[1..];
      assert segments == [s] + rest;
      if s == "" || s == "." {
        WalkLength(rest, at);
      } else if s == ".." {
        WalkLength(rest, at[..|at| - 1]);
      } else {
        WalkLength(rest, at + [s]);
      }
    }
  }

  lemma {:induction false} OrdinaryWalk(segments: seq<string>, at: seq<string>)
    requires forall s :: s in segments ==> Ordinary(s)
    ensures Walk(segments, at) == Some(at + segments)
  {
    if segments != [] {
      assert Ordinary(segments[0]) && forall s :: s in segments[1..] ==> s in segments;
      OrdinaryWalk(segments[1..], at + [segments[0]]);
      assert at + [segments[0]] + segments[1..] == at + segments;
    } else {
      assert at + segments == at;
    }
  }

  /**
   An accepted path is one without backslashes that, walked segment by segment from the root, stays below it and arrives
   where its own segments say: it is its own normal form.
   */
  lemma AcceptedIffNormal(path: string)
    ensures TargetAccepts(path) <==>
      path != "" && '\\' !in path && Walk(Split(path, '/'), []) == Some(Split(path, '/'))
  {
    var segments := Split(path, '/');
    if Walk(segments, []) == Some(segments) {
      WalkLength(segments, []);
    }
    if TargetAccepts(path) {
      OrdinaryWalk(segments, []);
      assert [] + segments == segments;
    }
  }

  /** A path below another one. */
  predicate Under(parent: string, path: string) {
    parent + "/" <= path
  }

  /** Two entries that no file tree holds together: a file where the other one needs a directory. */
  predicate Clashing(a: Item, b: Item) {
    || (a.File? && Under(a.path, b.path))
    || (b.File? && Under(b.path, a.path))
    || (a.path == b.path && a.File? != b.File?)
  }

  /** Creating the entry fails: a directory cannot be made, or a file written, over what is there. */
  predicate Clashes(stored: seq<Item>, entry: Item) {
    exists a :: a in stored && Clashing(a, entry)
  }

  function Fail(r: Receiver): Receiver {
    r.(failed := true)
  }

  /** Ends the current stream: its contents are complete, and its close callback is outstanding. */
  function Close(r: Receiver): Receiver
    requires r.current.Some?
  {
    var s := r.current.value;
    r.(current := None, pending := r.pending + 1, stored := r.stored + [File(s.path, s.mode, s.written)])
  }

  /** What one parsed header does, with its own line already taken off the buffer. */
  function Open(h: Header, r: Receiver): Receiver
    requires r.current.None?
    ensures Open(h, r).buffer == r.buffer
  {
    if h.path.None? || !TargetAccepts(h.path.value) then Fail(r)
    else if h.directory then
      if Clashes(r.stored, Directory(h.path.value)) then Fail(r)
      else r.(stored := r.stored + [Directory(h.path.value)])
    else if h.size.None? || h.size.value < 0 || h.mode.None? then Fail(r)
    else if Clashes(r.stored, File(h.path.value, h.mode.value, [])) then Fail(r)
    else
      var r' := r.(current := Some(Stream(h.path.value, h.mode.value % 512, [], h.size.value)));
      if h.size.value == 0 then Close(r') else r'
  }

  /** One turn of the loop in `pump`: go round again, or return. */
  datatype Turn = Again(r: Receiver) | Stop(r: Receiver)

  /** `accepts(n)` is the answer of the n-th `write`; `false` asks for a pause. */
  function PumpTurn(codec: Codec, accepts: nat -> bool, r: Receiver): (t: Turn)
    ensures t.Again? ==> Work(t.r) < Work(r)
  {
    if r.failed then Stop(r)
    else if r.current.Some? then
      if r.buffer == [] then Stop(r)
      else
        var r' := WritePart(r);
        if !accepts(r.writes) then Stop(r'.(paused := true))
        else Again(if r'.current.value.left == 0 then Close(r') else r')
    else
      match IndexOf(r.buffer, NEWLINE)
      case None => Stop(if |r.buffer| > HEADER_LIMIT then Fail(r) else r)
      case Some(i) =>
        var parsed := codec.parse(r.buffer[..i]);
        var r' := r.(buffer := r.buffer[i + 1..]);
        if parsed.None? then Stop(Fail(r))
        else if parsed.value.end then
          Stop(if r'.buffer != [] then Fail(r'.(ended := true)) else r'.(ended := true))
        else Again(Open(parsed.value, r'))
  }

  /** What a turn uses up. */
  function Work(r: Receiver): nat {
    2 * |r.buffer| + (if r.current.Some? then 1 else 0)
  }

  /** `pump`: drains the buffer. */
  function Pump(codec: Codec, accepts: nat -> bool, r: Receiver): Receiver
    decreases Work(r)
  {
    match PumpTurn(codec, accepts, r)
    case Again(r') => Pump(codec, accepts, r')
    case Stop(r') => r'
  }

  /** Hands the current stream as much of the buffer as it is owed. */
  function WritePart(r: Receiver): (r': Receiver)
    requires r.current.Some? && r.buffer != []
    ensures r'.current.Some?
    ensures |r'.buffer| == |r.buffer| - Min(r.current.value.left, |r.buffer|)
    ensures r'.current.value.left == 0 || r'.buffer == []
  {
    var s := r.current.value;
    var n := Min(s.left, |r.buffer|);
    r.(buffer := r.buffer[n..],
       current := Some(s.(written := s.written + r.buffer[..n], left := s.left - n)),
       writes := r.writes + 1)
  }

  datatype Event = Data(chunk: Bytes) | Drain | Closed | InputEnd

  /** What Node may deliver: no `data` or `end` while paused or after `end`, no empty chunk. */
  predicate Enabled(r: Receiver, e: Event) {
    match e
    case Data(chunk) => chunk != [] && !r.paused && !r.inputEnded
    case Drain => r.paused
    case Closed => r.pending > 0
    case InputEnd => !r.paused && !r.inputEnded
  }

  function Handle(codec: Codec, accepts: nat -> bool, r: Receiver, e: Event): Receiver
    requires Enabled(r, e)
  {
    match e
    case Data(chunk) =>
      if r.ended then Fail(r) else Pump(codec, accepts, r.(buffer := r.buffer + chunk))
    case Drain => Pump(codec, accepts, r.(paused := false))
    case Closed => r.(pending := r.pending - 1)
    case InputEnd =>
      var r' := r.(inputEnded := true);
      if !r'.ended || r'.current.Some? then Fail(r') else r'
  }

  /** The events are deliverable one after the other. */
  predicate Legal(codec: Codec, accepts: nat -> bool, r: Receiver, events: seq<Event>)
    decreases |events|
  {
    events == [] ||
    (Enabled(r, events[0]) && Legal(codec, accepts, Handle(codec, accepts, r, events[0]), events[1..]))
  }

  function Run(codec: Codec, accepts: nat -> bool, r: Receiver, events: seq<Event>): Receiver
    requires Legal(codec, accepts, r, events)
    decreases |events|
  {
    if events == [] then r else Run(codec, accepts, Handle(codec, accepts, r, events[0]), events[1..])
  }

  function Received(events: seq<Event>): Bytes {
    if events == [] then []
    else (if events[0].Data? then events[0].chunk else []) + Received(events[1..])
  }

  // ---------------------------------------------------------------------------------------------------------
  // Conditions on the entries and their headers.

  /** The codec reads this header back, and its text holds no line feed. */
  predicate Readable(codec: Codec, h: Header) {
    codec.parse(codec.render(h)) == Some(h) && NEWLINE !in codec.render(h)
  }

  predicate Uploadable(codec: Codec, items: seq<Item>) {
    && Readable(codec, END_HEADER)
    && forall item :: item in items ==> Readable(codec, HeaderOf(item))
  }

  predicate HeadersFit(codec: Codec, items: seq<Item>) {
    && |codec.render(END_HEADER)| <= HEADER_LIMIT
    && forall item :: item in items ==> |codec.render(HeaderOf(item))| <= HEADER_LIMIT
  }

  /** The entries fit into one file tree: accepted paths, and no two that need each other's place. */
  predicate TreeLike(items: seq<Item>) {
    && (forall i :: 0 <= i < |items| ==> TargetAccepts(items[i].path))
    && forall i, j :: 0 <= i < j < |items| ==> !Clashing(items[i], items[j])
  }

  /** A file tree whose directories are these holds all the entries. */
  predicate HeldBy(directories: set<string>, items: seq<Item>) {
    forall i :: 0 <= i < |items| ==>
      && (items[i].path in directories <==> items[i].Directory?)
      && forall n :: 0 <= n < |items[i].path| && items[i].path[n] == '/' ==> items[i].path[..n] in directories
  }

  /** Fitting entry by entry is fitting at once: some tree holds all of them. */
  lemma TreeLikeIffHeld(items: seq<Item>)
    ensures TreeLike(items)
            <==> (forall i :: 0 <= i < |items| ==> TargetAccepts(items[i].path))
                 && exists directories :: HeldBy(directories, items)
  {
    if TreeLike(items) {
      var above :=
        set i, n | 0 <= i < |items| && 0 <= n < |items[i].path| && items[i].path[n] == '/' :: items[i].path[..n];
      var own := set i | 0 <= i < |items| && items[i].Directory? :: items[i].path;
      forall i | 0 <= i < |items| && items[i].File?
        ensures items[i].path !in above && items[i].path !in own
      {
        forall j, n | 0 <= j < |items| && 0 <= n < |items[j].path| && items[j].path[n] == '/'
          ensures items[j].path[..n] != items[i].path
        {
          FilesHoldNothing(items, i, j, n);
        }
        forall j | 0 <= j < |items| && items[j].Directory?
          ensures items[j].path != items[i].path
        {
          assert Clashing(items[i], items[j]) <==> Clashing(items[j], items[i]);
        }
      }
      assert HeldBy(above + own, items);
    }
    if directories :| HeldBy(directories, items) {
      forall i, j | 0 <= i < j < |items|
        ensures !Clashing(items[i], items[j])
      {
        NotUnder(directories, items, i, j);
        NotUnder(directories, items, j, i);
      }
    }
  }

  lemma UnderFromCut(path: string, n: nat)
    requires n < |path| && path[n] == '/'
    ensures Under(path[..n], path)
  {
    assert path[..n + 1] == path[..n] + "/";
  }

  lemma FilesHoldNothing(items: seq<Item>, i: nat, j: nat, n: nat)
    requires TreeLike(items) && i < |items| && items[i].File?
    requires j < |items| && n < |items[j].path| && items[j].path[n] == '/'
    ensures items[j].path[..n] != items[i].path
  {
    UnderFromCut(items[j].path, n);
    assert Clashing(items[i], items[j]) <==> Clashing(items[j], items[i]);
  }

  lemma NotUnder(directories: set<string>, items: seq<Item>, i: nat, j: nat)
    requires HeldBy(directories, items) && i < |items| && j < |items|
    ensures items[i].File? ==> !Under(items[i].path, items[j].path)
  {
    var path, n := items[j].path, |items[i].path|;
    assert Under(items[i].path, path) ==> path[n] == (items[i].path + "/")[n] && path[..n] == items[i].path;
  }

  /** The entry as the container holds it: permission bits only. */
  function Landed(item: Item): Item {
    if item.File? then item.(mode := item.mode % 512) else item
  }

  function LandedAll(items: seq<Item>): seq<Item> {
    seq(|items|, i requires 0 <= i < |items| => Landed(items[i]))
  }

  // ---------------------------------------------------------------------------------------------------------
  // The invariant: what is buffered, followed by what is still unread, is what the receiver has left to do.

  /** The receiver has stored the first entries and holds a proper start of the next one. */
  ghost predicate OnCourse(items: seq<Item>, r: Receiver) {
    var k := |r.stored|;
    && k <= |items|
    && r.stored == LandedAll(items[..k])
    && (r.current.Some? ==> k < |items| && Partial(items[k], r.current.value))
    && TreeLike(items[..if r.current.Some? then k + 1 else k])
  }

  ghost predicate Partial(item: Item, s: Stream) {
    && item.File?
    && s.path == item.path && s.mode == item.mode % 512
    && |s.written| + s.left == |item.bytes|
    && s.written == item.bytes[..|s.written|]
  }

  /** What a receiver on course still has to read. */
  ghost function Owed(codec: Codec, items: seq<Item>, r: Receiver): Bytes
    requires OnCourse(items, r)
  {
    var k := |r.stored|;
    if r.current.None? then Encode(codec, items[k..])
    else items[k].bytes[|r.current.value.written|..] + Encode(codec, items[k + 1..])
  }

  /**
   `unread` is the part of the stream not yet delivered and `extra` whatever was added behind the end record.
   Only trailing bytes, or entries that fit into no file tree, can have failed the receiver.
   */
  ghost predicate Synced(codec: Codec, items: seq<Item>, extra: Bytes, unread: Bytes, r: Receiver) {
    if r.failed then extra != [] || !TreeLike(items)
    else if r.ended then
      TreeLike(items) && r.current.None? && r.stored == LandedAll(items) && r.buffer == [] && unread == extra
    else
      OnCourse(items, r) && r.buffer + unread == Owed(codec, items, r) + extra
  }

  /** The pump left nothing it could still use. */
  predicate Starved(r: Receiver) {
    r.failed || r.ended || r.paused || (if r.current.Some? then r.buffer == [] else NEWLINE !in r.buffer)
  }

  lemma EncodeHasNewline(codec: Codec, items: seq<Item>)
    ensures NEWLINE in Encode(codec, items)
  {
    if items == [] {
      assert Encode(codec, items)[|codec.render(END_HEADER)|] == NEWLINE;
    } else {
      assert Line(codec, HeaderOf(items[0]))[|codec.render(HeaderOf(items[0]))|] == NEWLINE;
    }
  }

  /** A buffered header line is found exactly at the end of its text, with the rest of the stream behind it. */
  lemma FirstLine(text: Bytes, tail: Bytes, buffer: Bytes, unread: Bytes)
    requires NEWLINE !in text
    requires buffer + unread == text + [NEWLINE] + tail
    requires |buffer| > |text|
    ensures IndexOf(buffer, NEWLINE) == Some(|text|)
    ensures buffer[..|text|] == text
    ensures buffer[|text| + 1..] + unread == tail
  {
    var whole := buffer + unread;
    assert buffer[|text|] == whole[|text|] == NEWLINE;
    assert buffer[..|text|] == whole[..|text|] == text;
    IndexOfFirst(buffer, NEWLINE, |text|);
    assert buffer[|text| + 1..] + unread == whole[|text| + 1..] == tail;
  }

  /** A shorter buffer is still inside the header text. */
  lemma PartialLine(text: Bytes, tail: Bytes, buffer: Bytes, unread: Bytes)
    requires NEWLINE !in text
    requires buffer + unread == text + [NEWLINE] + tail
    requires |buffer| <= |text|
    ensures NEWLINE !in buffer && IndexOf(buffer, NEWLINE) == None
    ensures unread != []
  {
    var whole := buffer + unread;
    assert buffer == whole[..|buffer|] == text[..|buffer|];
    assert forall i :: 0 <= i < |buffer| ==> buffer[i] == text[i];
  }

  lemma LandedSnoc(items: seq<Item>, k: nat)
    requires k < |items|
    ensures LandedAll(items[..k + 1]) == LandedAll(items[..k]) + [Landed(items[k])]
  {
  }

  /** `write` takes the front of the buffer, which is the front of what the open file is owed. */
  lemma PartGrows(item: Item, buffer: Bytes, unread: Bytes, behind: Bytes, s: Stream, n: nat)
    requires Partial(item, s) && n <= s.left && n <= |buffer|
    requires buffer + unread == item.bytes[|s.written|..] + behind
    ensures Partial(item, s.(written := s.written + buffer[..n], left := s.left - n))
    ensures buffer[n..] + unread == item.bytes[|s.written| + n..] + behind
  {
    var owed := item.bytes[|s.written|..];
    assert buffer[..n] == (buffer + unread)[..n] == (owed + behind)[..n] == owed[..n];
    assert s.written + owed[..n] == item.bytes[..|s.written| + n];
    assert buffer[n..] + unread == (buffer + unread)[n..] == (owed + behind)[n..] == owed[n..] + behind;
    assert owed[n..] == item.bytes[|s.written| + n..];
  }

  /** One `write`, and the close that follows when the file is complete, keep the stream in step. */
  lemma WriteKeeps(codec: Codec, items: seq<Item>, extra: Bytes, unread: Bytes, r: Receiver)
    requires Synced(codec, items, extra, unread, r)
    requires !r.failed && !r.ended && r.current.Some? && r.buffer != []
    ensures Synced(codec, items, extra, unread, WritePart(r))
    ensures WritePart(r).current.value.left == 0 ==> Synced(codec, items, extra, unread, Close(WritePart(r)))
  {
    hide Encode, LandedAll, TreeLike;
    var k, s := |r.stored|, r.current.value;
    var n := Min(s.left, |r.buffer|);
    var behind := Encode(codec, items[k + 1..]);
    assert items[k].bytes[|s.written|..] + (behind + extra) == Owed(codec, items, r) + extra;
    PartGrows(items[k], r.buffer, unread, behind + extra, s, n);
    var r' := WritePart(r);
    assert items[k].bytes[|s.written| + n..] + (behind + extra) == Owed(codec, items, r') + extra;
    if r'.current.value.left == 0 {
      CloseKeeps(codec, items, extra, unread, r');
    }
  }

  lemma CloseKeeps(codec: Codec, items: seq<Item>, extra: Bytes, unread: Bytes, r: Receiver)
    requires Synced(codec, items, extra, unread, r)
    requires !r.failed && !r.ended && r.current.Some? && r.current.value.left == 0
    ensures Synced(codec, items, extra, unread, Close(r))
  {
    hide Encode, LandedAll, TreeLike;
    var k := |r.stored|;
    LandedSnoc(items, k);
    assert r.current.value.written == items[k].bytes;
    assert Owed(codec, items, r) == Encode(codec, items[k + 1..]);
  }

  /** The header line that the receiver is about to read, and the stream behind that line. */
  function NextHeader(items: seq<Item>, k: nat): Header
    requires k <= |items|
  {
    if k == |items| then END_HEADER else HeaderOf(items[k])
  }

  function BehindHeader(codec: Codec, items: seq<Item>, k: nat): Bytes
    requires k <= |items|
  {
    if k == |items| then [] else Body(items[k]) + Encode(codec, items[k + 1..])
  }

  lemma EncodeUnfold(codec: Codec, items: seq<Item>, k: nat)
    requires k <= |items|
    ensures Encode(codec, items[k..])
            == codec.render(NextHeader(items, k)) + [NEWLINE] + BehindHeader(codec, items, k)
  {
    if k < |items| {
      assert items[k..][1..] == items[k + 1..];
    }
  }

  /** Between entries, either the next header line is complete in the buffer, or the buffer is part of its text. */
  lemma AtHeader(codec: Codec, items: seq<Item>, extra: Bytes, unread: Bytes, r: Receiver)
    requires Uploadable(codec, items)
    requires Synced(codec, items, extra, unread, r)
    requires !r.failed && !r.ended && r.current.None?
    ensures |r.stored| <= |items|
    ensures
      var text := codec.render(NextHeader(items, |r.stored|));
      if |r.buffer| <= |text| then
        && IndexOf(r.buffer, NEWLINE) == None && NEWLINE !in r.buffer
        && unread + extra != []
        && (HeadersFit(codec, items) ==> |r.buffer| <= HEADER_LIMIT)
      else
        && IndexOf(r.buffer, NEWLINE) == Some(|text|)
        && r.buffer[..|text|] == text
        && r.buffer[|text| + 1..] + unread == BehindHeader(codec, items, |r.stored|) + extra
  {
    var k := |r.stored|;
    var text, tail := codec.render(NextHeader(items, k)), BehindHeader(codec, items, k);
    EncodeUnfold(codec, items, k);
    assert Readable(codec, NextHeader(items, k)) by { if k < |items| { assert items[k] in items; } }
    assert r.buffer + unread == text + [NEWLINE] + (tail + extra);
    if |r.buffer| <= |text| {
      PartialLine(text, tail + extra, r.buffer, unread);
    } else {
      FirstLine(text, tail + extra, r.buffer, unread);
    }
  }

  /** One more entry keeps the tree exactly when it clashes with nothing stored. */
  lemma TreeSnoc(items: seq<Item>, k: nat)
    requires k < |items|
    ensures TreeLike(items[..k + 1]) <==>
      TreeLike(items[..k]) && TargetAccepts(items[k].path) && !Clashes(LandedAll(items[..k]), items[k])
    ensures TreeLike(items) ==> TreeLike(items[..k + 1])
  {
    hide Under;
    var front, landed := items[..k], LandedAll(items[..k]);
    assert items[..k + 1] == front + [items[k]];
    assert forall i :: 0 <= i < k ==>
      landed[i] == Landed(front[i]) && (Clashing(landed[i], items[k]) <==> Clashing(front[i], items[k]));
    if Clashes(landed, items[k]) {
      var a :| a in landed && Clashing(a, items[k]);
      var i :| 0 <= i < k && landed[i] == a;
      assert Clashing(items[..k + 1][i], items[..k + 1][k]);
    } else {
      forall i | 0 <= i < k
        ensures !Clashing(front[i], items[k])
      {
        assert landed[i] in landed;
      }
    }
  }

  lemma ClashIgnoresContents(stored: seq<Item>, item: Item)
    ensures item.File? ==> (Clashes(stored, File(item.path, item.mode, [])) <==> Clashes(stored, item))
  {
    hide Under;
    if item.File? {
      assert forall a :: Clashing(a, File(item.path, item.mode, [])) <==> Clashing(a, item);
    }
  }

  /** Opening the next entry keeps the stream in step. */
  lemma OpenKeeps(codec: Codec, items: seq<Item>, extra: Bytes, unread: Bytes, r: Receiver)
    requires !r.failed && !r.ended && r.current.None?
    requires |r.stored| < |items| && r.stored == LandedAll(items[..|r.stored|])
    requires TreeLike(items[..|r.stored|])
    requires r.buffer + unread == BehindHeader(codec, items, |r.stored|) + extra
    ensures Synced(codec, items, extra, unread, Open(HeaderOf(items[|r.stored|]), r))
  {
    var k := |r.stored|;
    var item := items[k];
    var next := Open(HeaderOf(item), r);
    var rest := BehindHeader(codec, items, k);
    LandedSnoc(items, k);
    TreeSnoc(items, k);
    ClashIgnoresContents(r.stored, item);
    hide TreeLike, Clashes;
    if next.failed {
      return;
    }
    if item.File? && item.bytes != [] {
      assert item.bytes[..0] == [] && item.bytes[0..] == item.bytes;
    } else {
      assert rest == Encode(codec, items[k + 1..]);
    }
    assert Owed(codec, items, next) == rest;
  }

  /** A complete header line is the one expected, and acting on it keeps the stream in step. */
  lemma HeaderKeeps(codec: Codec, items: seq<Item>, extra: Bytes, unread: Bytes, r: Receiver)
    requires Uploadable(codec, items)
    requires Synced(codec, items, extra, unread, r)
    requires !r.failed && !r.ended && r.current.None? && NEWLINE in r.buffer
    ensures |r.stored| <= |items|
    ensures
      var i := IndexOf(r.buffer, NEWLINE).value;
      var r' := r.(buffer := r.buffer[i + 1..]);
      && codec.parse(r.buffer[..i]) == Some(NextHeader(items, |r.stored|))
      && if |r.stored| < |items|
         then Synced(codec, items, extra, unread, Open(HeaderOf(items[|r.stored|]), r'))
         else
           var r'' := r'.(ended := true);
           Synced(codec, items, extra, unread, if r'.buffer == [] then r'' else Fail(r''))
  {
    AtHeader(codec, items, extra, unread, r);
    var k := |r.stored|;
    var r' := r.(buffer := r.buffer[|codec.render(NextHeader(items, k))| + 1..]);
    if k < |items| {
      assert items[k] in items;
      OpenKeeps(codec, items, extra, unread, r');
    } else {
      assert items[..k] == items;
      assert r'.buffer + unread == extra;
    }
  }

  lemma TurnKeeps(codec: Codec, accepts: nat -> bool, items: seq<Item>, extra: Bytes, unread: Bytes, r: Receiver)
    requires Uploadable(codec, items)
    requires HeadersFit(codec, items) || (unread == [] && extra == [])
    requires !r.ended && Synced(codec, items, extra, unread, r)
    ensures
      var t := PumpTurn(codec, accepts, r);
      && Synced(codec, items, extra, unread, t.r)
      && t.r.inputEnded == r.inputEnded
      && if t.Again? then !t.r.ended && t.r.paused == r.paused else !r.paused ==> Starved(t.r)
  {
    if r.failed {
    } else if r.current.Some? {
      if r.buffer != [] {
        WriteKeeps(codec, items, extra, unread, r);
      }
    } else {
      HeaderTurnKeeps(codec, accepts, items, extra, unread, r);
    }
  }

  lemma HeaderTurnKeeps(codec: Codec, accepts: nat -> bool, items: seq<Item>, extra: Bytes, unread: Bytes, r: Receiver)
    requires Uploadable(codec, items)
    requires HeadersFit(codec, items) || (unread == [] && extra == [])
    requires Synced(codec, items, extra, unread, r)
    requires !r.failed && !r.ended && r.current.None?
    ensures
      var t := PumpTurn(codec, accepts, r);
      && Synced(codec, items, extra, unread, t.r)
      && t.r.inputEnded == r.inputEnded
      && if t.Again? then !t.r.ended && t.r.paused == r.paused else Starved(t.r)
  {
    hide Synced, Uploadable, HeadersFit;
    AtHeader(codec, items, extra, unread, r);
    if NEWLINE in r.buffer {
      HeaderKeeps(codec, items, extra, unread, r);
    }
  }

  /** The pump keeps the stream in step and stops only when it has nothing left to use. */
  lemma {:induction false} PumpKeeps(
    codec: Codec, accepts: nat -> bool, items: seq<Item>, extra: Bytes, unread: Bytes, r: Receiver)
    requires Uploadable(codec, items)
    requires HeadersFit(codec, items) || (unread == [] && extra == [])
    requires !r.ended && Synced(codec, items, extra, unread, r)
    ensures Synced(codec, items, extra, unread, Pump(codec, accepts, r))
    ensures !r.paused ==> Starved(Pump(codec, accepts, r))
    ensures Pump(codec, accepts, r).inputEnded == r.inputEnded
    decreases Work(r)
  {
    TurnKeeps(codec, accepts, items, extra, unread, r);
    var t := PumpTurn(codec, accepts, r);
    if t.Again? {
      PumpKeeps(codec, accepts, items, extra, unread, t.r);
    }
  }

  // ---------------------------------------------------------------------------------------------------------
  // Whole runs.

  /** Behind the end record the pump changes nothing. */
  lemma PumpEnded(codec: Codec, accepts: nat -> bool, r: Receiver)
    requires r.failed || (r.current.None? && r.buffer == [])
    ensures Pump(codec, accepts, r) == r
  {
  }

  /** Every delivered event keeps the stream in step. `after` is what is unread once `e` has been handled. */
  lemma HandleKeeps(
    codec: Codec, accepts: nat -> bool, items: seq<Item>, extra: Bytes, after: Bytes, r: Receiver, e: Event)
    requires Uploadable(codec, items)
    requires HeadersFit(codec, items) || (after == [] && extra == [])
    requires Enabled(r, e) && Starved(r)
    requires e != InputEnd
    requires Synced(codec, items, extra, Received([e]) + after, r)
    ensures Synced(codec, items, extra, after, Handle(codec, accepts, r, e))
    ensures Starved(Handle(codec, accepts, r, e))
    ensures Handle(codec, accepts, r, e).inputEnded == r.inputEnded
  {
    hide Pump, Uploadable, HeadersFit, TreeLike, Partial, Encode;
    match e
    case Data(chunk) =>
      assert Received([e]) == chunk;
      if !r.ended {
        var r' := r.(buffer := r.buffer + chunk);
        assert r'.buffer + after == r.buffer + (chunk + after);
        PumpKeeps(codec, accepts, items, extra, after, r');
      }
    case Drain =>
      assert Received([e]) + after == after;
      if r.ended {
        PumpEnded(codec, accepts, r.(paused := false));
      } else {
        PumpKeeps(codec, accepts, items, extra, after, r.(paused := false));
      }
    case Closed =>
      assert Received([e]) + after == after;
    case InputEnd =>
  }

  lemma FirstEvent(codec: Codec, accepts: nat -> bool, r: Receiver, events: seq<Event>)
    requires events != []
    ensures Legal(codec, accepts, r, events)
            <==> Enabled(r, events[0]) && Legal(codec, accepts, Handle(codec, accepts, r, events[0]), events[1..])
    ensures Legal(codec, accepts, r, events)
            ==> Run(codec, accepts, r, events) == Run(codec, accepts, Handle(codec, accepts, r, events[0]), events[1..])
    ensures Received(events) == Received([events[0]]) + Received(events[1..])
    ensures |events| == 1 ==> Received(events[1..]) == []
  {
    hide Handle;
  }

  lemma {:induction false} RunKeeps(
    codec: Codec, accepts: nat -> bool, items: seq<Item>, extra: Bytes, after: Bytes, r: Receiver, events: seq<Event>)
    requires Uploadable(codec, items)
    requires HeadersFit(codec, items) || (after == [] && extra == [] && |events| <= 1)
    requires Legal(codec, accepts, r, events) && Starved(r)
    requires InputEnd !in events
    requires Synced(codec, items, extra, Received(events) + after, r)
    ensures Synced(codec, items, extra, after, Run(codec, accepts, r, events))
    ensures Starved(Run(codec, accepts, r, events))
    decreases |events|
  {
    if events == [] {
      assert Received(events) + after == after && Run(codec, accepts, r, events) == r;
      hide *;
    } else {
      FirstEvent(codec, accepts, r, events);
      hide *;
      var later := Received(events[1..]) + after;
      assert Received([events[0]]) + later == Received(events) + after;
      HandleKeeps(codec, accepts, items, extra, later, r, events[0]);
      RunKeeps(codec, accepts, items, extra, after, Handle(codec, accepts, r, events[0]), events[1..]);
    }
  }

  /** Once the input has ended, only close callbacks are left, and they decide nothing. */
  lemma {:induction false} AfterEnd(codec: Codec, accepts: nat -> bool, r: Receiver, events: seq<Event>)
    requires Legal(codec, accepts, r, events)
    requires r.inputEnded && !r.paused
    ensures Received(events) == []
    ensures
      var r' := Run(codec, accepts, r, events);
      r'.failed == r.failed && r'.ended == r.ended && r'.current == r.current && r'.stored == r.stored
    decreases |events|
  {
    if events != [] {
      AfterEnd(codec, accepts, Handle(codec, accepts, r, events[0]), events[1..]);
    }
  }

  lemma {:induction false} ReceivedAppend(a: seq<Event>, b: seq<Event>)
    ensures Received(a + b) == Received(a) + Received(b)
  {
    if a == [] {
      assert a + b == b;
    } else {
      assert (a + b)[1..] == a[1..] + b;
      ReceivedAppend(a[1..], b);
    }
  }

  lemma {:induction false} RunAppend(codec: Codec, accepts: nat -> bool, r: Receiver, a: seq<Event>, b: seq<Event>)
    requires Legal(codec, accepts, r, a + b)
    ensures Legal(codec, accepts, r, a)
    ensures Legal(codec, accepts, Run(codec, accepts, r, a), b)
    ensures Run(codec, accepts, r, a + b) == Run(codec, accepts, Run(codec, accepts, r, a), b)
    decreases |a|
  {
    if a == [] {
      assert a + b == b;
      hide *;
    } else {
      FirstEvent(codec, accepts, r, a + b);
      FirstEvent(codec, accepts, r, a);
      hide *;
      assert (a + b)[1..] == a[1..] + b && (a + b)[0] == a[0];
      RunAppend(codec, accepts, Handle(codec, accepts, r, a[0]), a[1..], b);
    }
  }

  /** The whole upload arrived: the process exits with code 0 and the container holds exactly these entries. */
  ghost predicate Delivered(items: seq<Item>, r: Receiver) {
    !r.failed && r.ended && r.current.None? && r.stored == LandedAll(items)
  }

  lemma DeliveredNotFailed(items: seq<Item>, r: Receiver)
    ensures Delivered(items, r) ==> !r.failed
  {
  }

  /** A run with the end of input is the run before it, the end itself, and close callbacks that change nothing. */
  lemma SplitAtEnd(codec: Codec, accepts: nat -> bool, events: seq<Event>) returns (before: seq<Event>)
    requires Legal(codec, accepts, START, events) && InputEnd in events
    ensures InputEnd !in before && |before| < |events| && before == events[..|before|] && events[|before|] == InputEnd
    ensures Legal(codec, accepts, START, before) && Received(before) == Received(events)
    ensures
      var r, r' := Run(codec, accepts, START, before), Run(codec, accepts, START, events);
      && !r.paused
      && r'.failed == (r.failed || !r.ended || r.current.Some?)
      && r'.ended == r.ended && r'.current == r.current && r'.stored == r.stored
  {
    var i := IndexOf(events, InputEnd).value;
    hide *;
    before := events[..i];
    var closings := events[i + 1..];
    assert events == before + ([InputEnd] + closings);
    RunAppend(codec, accepts, START, before, [InputEnd] + closings);
    ReceivedAppend(before, [InputEnd] + closings);
    AtEnd(codec, accepts, Run(codec, accepts, START, before), closings);
    assert Received(before) + [] == Received(before);
  }

  /** The end of input and the close callbacks behind it. */
  lemma AtEnd(codec: Codec, accepts: nat -> bool, r: Receiver, closings: seq<Event>)
    requires Legal(codec, accepts, r, [InputEnd] + closings)
    ensures Received([InputEnd] + closings) == [] && !r.paused
    ensures
      var r' := Run(codec, accepts, r, [InputEnd] + closings);
      && r'.failed == (r.failed || !r.ended || r.current.Some?)
      && r'.ended == r.ended && r'.current == r.current && r'.stored == r.stored
  {
    assert ([InputEnd] + closings)[1..] == closings;
    AfterEnd(codec, accepts, Handle(codec, accepts, r, InputEnd), closings);
  }

  /** Where a run stands once the end of its input was handled. */
  lemma RunVerdict(codec: Codec, accepts: nat -> bool, items: seq<Item>, extra: Bytes, after: Bytes, events: seq<Event>)
    requires Uploadable(codec, items)
    requires HeadersFit(codec, items) || (after == [] && extra == [] && |events| >= 2 && events[1] == InputEnd)
    requires Legal(codec, accepts, START, events) && InputEnd in events
    requires Received(events) + after == Encode(codec, items) + extra
    ensures
      var r := Run(codec, accepts, START, events);
      if after == [] && extra == [] then if TreeLike(items) then Delivered(items, r) else r.failed
      else r.failed || (r.ended && after == extra)
  {
    var before := SplitAtEnd(codec, accepts, events);
    var r := Run(codec, accepts, START, before);
    StartSynced(codec, items, extra, Received(before) + after);
    RunKeeps(codec, accepts, items, extra, after, START, before);
    if after == [] && extra == [] {
      AllReadMeansEnded(codec, items, r);
    }
  }

  lemma StartSynced(codec: Codec, items: seq<Item>, extra: Bytes, all: Bytes)
    requires all == Encode(codec, items) + extra
    ensures Synced(codec, items, extra, all, START)
  {
    assert items[0..] == items;
    assert START.buffer + all == all;
  }

  /** With everything read and nothing paused, a receiver in step has seen the end record. */
  lemma AllReadMeansEnded(codec: Codec, items: seq<Item>, r: Receiver)
    requires Synced(codec, items, [], [], r) && Starved(r) && !r.paused
    ensures r.ended || r.failed
  {
    if !r.ended && !r.failed {
      assert r.buffer + [] == r.buffer == Owed(codec, items, r) + [] == Owed(codec, items, r);
      EncodeHasNewline(codec, items[|r.stored| + (if r.current.Some? then 1 else 0)..]);
    }
  }

  /**
   Every chunking of the stream and every pattern of refused writes delivers exactly the entries sent, if they fit into
   one file tree; otherwise every one fails.
   */
  lemma UploadRoundTrip(codec: Codec, accepts: nat -> bool, items: seq<Item>, events: seq<Event>)
    requires Uploadable(codec, items) && HeadersFit(codec, items)
    requires Legal(codec, accepts, START, events) && InputEnd in events
    requires Received(events) == Encode(codec, items)
    ensures
      var r := Run(codec, accepts, START, events);
      (Delivered(items, r) <==> TreeLike(items)) && (r.failed <==> !TreeLike(items))
  {
    assert Received(events) + [] == Encode(codec, items) + [];
    RunVerdict(codec, accepts, items, [], [], events);
  }

  /** A stream cut short anywhere, also inside the end record, is rejected. */
  lemma TruncatedUploadFails(codec: Codec, accepts: nat -> bool, items: seq<Item>, events: seq<Event>)
    requires Uploadable(codec, items) && HeadersFit(codec, items)
    requires Legal(codec, accepts, START, events) && InputEnd in events
    requires Received(events) < Encode(codec, items)
    ensures Run(codec, accepts, START, events).failed
  {
    hide Encode, Received, Run, Legal, HeadersFit, Uploadable;
    var after := Encode(codec, items)[|Received(events)|..];
    assert Received(events) + after == Encode(codec, items) + [];
    RunVerdict(codec, accepts, items, [], after, events);
  }

  /** Anything behind the end record is rejected, in the same chunk or a later one. */
  lemma TrailingBytesFail(codec: Codec, accepts: nat -> bool, items: seq<Item>, extra: Bytes, events: seq<Event>)
    requires Uploadable(codec, items) && HeadersFit(codec, items)
    requires Legal(codec, accepts, START, events) && InputEnd in events
    requires extra != [] && Received(events) == Encode(codec, items) + extra
    ensures Run(codec, accepts, START, events).failed
  {
    assert Received(events) + [] == Encode(codec, items) + extra;
    RunVerdict(codec, accepts, items, extra, [], events);
  }

  /** A header that names no place to write to, or a file without a size or a mode. */
  predicate Malformed(h: Header) {
    && !h.end
    && (h.path.None? || !TargetAccepts(h.path.value)
        || (!h.directory && (h.size.None? || h.size.value < 0 || h.mode.None?)))
  }

  /** A complete header line that is no JSON, or malformed, fails the receiver before anything is stored for it. */
  lemma MalformedHeaderFails(codec: Codec, accepts: nat -> bool, r: Receiver)
    requires !r.failed && r.current.None? && NEWLINE in r.buffer
    requires
      var line := r.buffer[..IndexOf(r.buffer, NEWLINE).value];
      codec.parse(line).None? || Malformed(codec.parse(line).value)
    ensures
      var r' := Pump(codec, accepts, r);
      r'.failed && r'.stored == r.stored && r'.current == None && r'.ended == r.ended
  {
    var i := IndexOf(r.buffer, NEWLINE).value;
    var parsed := codec.parse(r.buffer[..i]);
    if parsed.Some? {
      var next := Open(parsed.value, r.(buffer := r.buffer[i + 1..]));
      assert PumpTurn(codec, accepts, r) == Again(next);
      assert PumpTurn(codec, accepts, next) == Stop(next);
    }
  }

  // ---------------------------------------------------------------------------------------------------------
  // The header limit. It is applied to a partial header only, so without it the chunking would decide.

  /** One chunk delivers headers of any length, if the entries fit into one file tree. */
  lemma WholeUploadRoundTrip(codec: Codec, accepts: nat -> bool, items: seq<Item>, events: seq<Event>)
    requires Uploadable(codec, items)
    requires |events| >= 2 && events[0] == Data(Encode(codec, items)) && events[1] == InputEnd
    requires Legal(codec, accepts, START, events)
    ensures Delivered(items, Run(codec, accepts, START, events)) <==> TreeLike(items)
  {
    FirstEvent(codec, accepts, START, events);
    assert Received([events[0]]) == Encode(codec, items);
    hide *;
    assert events[1..] == [InputEnd] + events[2..];
    AtEnd(codec, accepts, Handle(codec, accepts, START, events[0]), events[2..]);
    assert InputEnd in events[1..] && InputEnd in events;
    assert Received(events) + [] == Encode(codec, items) + [];
    RunVerdict(codec, accepts, items, [], [], events);
    DeliveredNotFailed(items, Run(codec, accepts, START, events));
  }

  lemma {:induction false} BehindHeaderLength(codec: Codec, items: seq<Item>, j: nat, k: nat)
    requires j < k <= |items|
    ensures |BehindHeader(codec, items, j)| >= |Encode(codec, items[k..])|
    decreases k - j
  {
    if j + 1 < k {
      BehindHeaderLength(codec, items, j + 1, k);
      EncodeUnfold(codec, items, j + 1);
    }
  }

  /** The buffer ends one byte past the limit inside the text of header `k`. */
  ghost predicate CutInside(codec: Codec, items: seq<Item>, k: nat, unread: Bytes, r: Receiver) {
    && k <= |items|
    && !r.failed && !r.ended && !r.paused
    && (|r.stored| < k || (|r.stored| == k && r.current.None?))
    && |codec.render(NextHeader(items, k))| > HEADER_LIMIT
    && |unread| + HEADER_LIMIT + 1 == |Encode(codec, items[k..])|
  }

  /** How much of the next header is buffered: all of it before header `k`, and one byte too many at it. */
  lemma BufferedAtHeader(codec: Codec, items: seq<Item>, k: nat, unread: Bytes, r: Receiver)
    requires Synced(codec, items, [], unread, r)
    requires CutInside(codec, items, k, unread, r) && r.current.None?
    ensures |r.stored| < k ==> |r.buffer| > |codec.render(NextHeader(items, |r.stored|))|
    ensures |r.stored| == k ==> |r.buffer| == HEADER_LIMIT + 1
  {
    var j := |r.stored|;
    assert |r.buffer| + |unread| == |Owed(codec, items, r)|;
    EncodeUnfold(codec, items, j);
    if j < k {
      BehindHeaderLength(codec, items, j, k);
    }
  }

  lemma StuckWriteTurn(codec: Codec, items: seq<Item>, k: nat, unread: Bytes, r: Receiver)
    requires Synced(codec, items, [], unread, r)
    requires CutInside(codec, items, k, unread, r) && r.current.Some?
    ensures
      var t := PumpTurn(codec, Accepting, r);
      && t.Again? && t.r.inputEnded == r.inputEnded
      && Synced(codec, items, [], unread, t.r) && CutInside(codec, items, k, unread, t.r)
  {
    assert |r.buffer| + |unread| == |Owed(codec, items, r)|;
    StillLonger(codec, items, k, r);
    WriteKeeps(codec, items, [], unread, r);
  }

  lemma StuckHeaderTurn(codec: Codec, items: seq<Item>, k: nat, unread: Bytes, r: Receiver)
    requires Uploadable(codec, items)
    requires Synced(codec, items, [], unread, r)
    requires CutInside(codec, items, k, unread, r) && r.current.None? && |r.stored| < k
    ensures
      var t := PumpTurn(codec, Accepting, r);
      && t.Again? && t.r.inputEnded == r.inputEnded && !t.r.paused
      && (!t.r.failed ==> Synced(codec, items, [], unread, t.r) && CutInside(codec, items, k, unread, t.r))
  {
    BufferedAtHeader(codec, items, k, unread, r);
    AtHeader(codec, items, [], unread, r);
    HeaderKeeps(codec, items, [], unread, r);
    var i := IndexOf(r.buffer, NEWLINE).value;
    HeaderIs(items, |r.stored|);
    OpenMoves(HeaderOf(items[|r.stored|]), r.(buffer := r.buffer[i + 1..]));
    hide Synced, Uploadable, Open, IndexOf, Encode, NextHeader, BehindHeader;
  }

  lemma HeaderIs(items: seq<Item>, k: nat)
    requires k < |items|
    ensures NextHeader(items, k) == HeaderOf(items[k]) && !HeaderOf(items[k]).end
  {
  }

  /** Opening an entry moves on by at most one entry and changes no flag but `failed`. */
  lemma OpenMoves(h: Header, r: Receiver)
    requires r.current.None?
    ensures
      var r' := Open(h, r);
      && r'.inputEnded == r.inputEnded && r'.paused == r.paused && r'.ended == r.ended
      && |r'.stored| + (if r'.current.Some? then 1 else 0) <= |r.stored| + 1
  {
    hide TargetAccepts, Clashes;
  }

  /** A header over the limit fails the receiver when the chunk ends inside it. */
  lemma {:induction false} PumpStuck(codec: Codec, items: seq<Item>, k: nat, unread: Bytes, r: Receiver)
    requires Uploadable(codec, items)
    requires Synced(codec, items, [], unread, r)
    requires CutInside(codec, items, k, unread, r)
    ensures Pump(codec, Accepting, r).failed && !Pump(codec, Accepting, r).paused
    ensures Pump(codec, Accepting, r).inputEnded == r.inputEnded
    decreases Work(r)
  {
    if r.current.Some? {
      StuckWriteTurn(codec, items, k, unread, r);
      PumpStuck(codec, items, k, unread, PumpTurn(codec, Accepting, r).r);
    } else if |r.stored| < k {
      StuckHeaderTurn(codec, items, k, unread, r);
      var r' := PumpTurn(codec, Accepting, r).r;
      if !r'.failed {
        PumpStuck(codec, items, k, unread, r');
      }
    } else {
      BufferedAtHeader(codec, items, k, unread, r);
      AtHeader(codec, items, [], unread, r);
    }
  }

  /** Inside an entry before `k`, all of the stream from header `k` on is still owed. */
  lemma StillLonger(codec: Codec, items: seq<Item>, k: nat, r: Receiver)
    requires OnCourse(items, r) && r.current.Some? && |r.stored| < k <= |items|
    ensures |Owed(codec, items, r)| >= |Encode(codec, items[k..])|
  {
    var j := |r.stored|;
    if j + 1 < k {
      EncodeUnfold(codec, items, j + 1);
      BehindHeaderLength(codec, items, j + 1, k);
    }
  }

  /** A writable that never asks for a pause. */
  function Accepting(n: nat): bool {
    true
  }

  /** The deliveries of one upload: any legal events that carry the whole stream and its end. */
  predicate UploadRun(codec: Codec, accepts: nat -> bool, items: seq<Item>, events: seq<Event>) {
    Legal(codec, accepts, START, events) && InputEnd in events && Received(events) == Encode(codec, items)
  }

  /** Splitting the stream inside an oversized header makes an upload fail. */
  lemma OversizedHeaderFails(codec: Codec, items: seq<Item>, k: nat) returns (events: seq<Event>)
    requires Uploadable(codec, items)
    requires k <= |items| && |codec.render(NextHeader(items, k))| > HEADER_LIMIT
    ensures UploadRun(codec, Accepting, items, events)
    ensures Run(codec, Accepting, START, events).failed
  {
    var all := Encode(codec, items);
    assert items[0..] == items;
    EncodeUnfold(codec, items, 0);
    EncodeUnfold(codec, items, k);
    if k > 0 { BehindHeaderLength(codec, items, 0, k); }
    var cut := |all| - |Encode(codec, items[k..])| + HEADER_LIMIT + 1;
    var head, tail := all[..cut], all[cut..];
    assert head + tail == all;
    var r := START.(buffer := START.buffer + head);
    assert r.buffer == head;
    assert r.buffer + tail == Owed(codec, items, r) + [];
    PumpStuck(codec, items, k, tail, r);
    events := TwoChunks(codec, head, tail);
  }

  /** A receiver that fails on the first of two chunks stays failed. */
  lemma TwoChunks(codec: Codec, head: Bytes, tail: Bytes) returns (events: seq<Event>)
    requires head != [] && tail != []
    requires
      var r := Pump(codec, Accepting, START.(buffer := [] + head));
      r.failed && !r.paused && !r.inputEnded
    ensures Legal(codec, Accepting, START, events) && InputEnd in events
    ensures Received(events) == head + tail
    ensures Run(codec, Accepting, START, events).failed
  {
    var r1 := Handle(codec, Accepting, START, Data(head));
    var r2 := Handle(codec, Accepting, r1, Data(tail));
    assert r2.failed && !r2.paused && !r2.inputEnded;
    var last := [InputEnd];
    assert last[1..] == [] && Legal(codec, Accepting, r2, last) && Run(codec, Accepting, r2, last).failed;
    var later := [Data(tail)] + last;
    assert later[1..] == last && Legal(codec, Accepting, r1, later) && Received(later) == tail + [];
    events := [Data(head)] + later;
    assert events[1..] == later && events[2] == InputEnd;
  }

  lemma AcceptedTurn(codec: Codec, r: Receiver)
    ensures
      var t := PumpTurn(codec, Accepting, r);
      t.r.paused == r.paused && t.r.inputEnded == r.inputEnded
  {
    hide IndexOf, TargetAccepts, Clashes;
  }

  lemma {:induction false} NeverPaused(codec: Codec, r: Receiver)
    requires !r.paused
    ensures
      var r' := Pump(codec, Accepting, r);
      !r'.paused && r'.inputEnded == r.inputEnded
    decreases Work(r)
  {
    AcceptedTurn(codec, r);
    hide PumpTurn, Accepting, Work;
    var t := PumpTurn(codec, Accepting, r);
    if t.Again? {
      NeverPaused(codec, t.r);
    }
  }

  /** The whole stream in one chunk. */
  lemma OneChunk(codec: Codec, items: seq<Item>) returns (events: seq<Event>)
    ensures |events| == 2 && events[0] == Data(Encode(codec, items)) && events[1] == InputEnd
    ensures UploadRun(codec, Accepting, items, events)
  {
    var all := Encode(codec, items);
    EncodeHasNewline(codec, items);
    NeverPaused(codec, START.(buffer := START.buffer + all));
    var last := [InputEnd];
    assert Legal(codec, Accepting, Handle(codec, Accepting, START, Data(all)), last);
    assert Received(last) == [] && all + [] == all;
    events := [Data(all)] + last;
    assert events[1..] == last;
  }

  /**
   The upload works for every chunking exactly when every header, the end record's too, is within the limit and the
   entries fit into one file tree.
   */
  lemma ChunkingIrrelevantIffHeadersFit(codec: Codec, items: seq<Item>)
    requires Uploadable(codec, items)
    ensures HeadersFit(codec, items) && TreeLike(items) <==>
      forall accepts, events :: UploadRun(codec, accepts, items, events)
        ==> Delivered(items, Run(codec, accepts, START, events))
  {
    if !TreeLike(items) {
      var events := OneChunk(codec, items);
      WholeUploadRoundTrip(codec, Accepting, items, events);
    } else if HeadersFit(codec, items) {
      forall accepts, events | UploadRun(codec, accepts, items, events)
        ensures Delivered(items, Run(codec, accepts, START, events))
      {
        UploadRoundTrip(codec, accepts, items, events);
      }
    } else {
      var k := |items|;
      if |codec.render(END_HEADER)| <= HEADER_LIMIT {
        var item :| item in items && |codec.render(HeaderOf(item))| > HEADER_LIMIT;
        k :| 0 <= k < |items| && items[k] == item;
      }
      var events := OversizedHeaderFails(codec, items, k);
      assert UploadRun(codec, Accepting, items, events);
    }
  }

  // ---------------------------------------------------------------------------------------------------------
  // What the container's files then are.

  predicate DistinctFiles(items: seq<Item>) {
    forall i, j :: 0 <= i < j < |items| && items[i].File? && items[j].File? ==> items[i].path != items[j].path
  }

  /** The contents by path after creating the stored entries in order. */
  function Contents(stored: seq<Item>): map<string, Bytes> {
    if stored == [] then map[]
    else
      var last := stored[|stored| - 1];
      var before := Contents(stored[..|stored| - 1]);
      if last.File? then before[last.path := last.bytes] else before
  }

  /** Distinct files arrive byte for byte, and no other file appears. */
  lemma {:induction false} DistinctFilesArrive(items: seq<Item>)
    requires DistinctFiles(items)
    ensures forall item :: item in items && item.File? ==>
      item.path in Contents(LandedAll(items)) && Contents(LandedAll(items))[item.path] == item.bytes
    ensures forall path :: path in Contents(LandedAll(items)) ==>
      exists item :: item in items && item.File? && item.path == path
  {
    if items != [] {
      var front, last := items[..|items| - 1], items[|items| - 1];
      assert items == front + [last];
      assert LandedAll(items)[..|items| - 1] == LandedAll(front);
      DistinctFilesArrive(front);
      forall item | item in items && item.File?
        ensures item.path in Contents(LandedAll(items)) && Contents(LandedAll(items))[item.path] == item.bytes
      {
        if item != last {
          var i :| 0 <= i < |items| && items[i] == item;
          assert front[i] == item;
        }
      }
    }
  }
}
