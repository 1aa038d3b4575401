/**
 The upload as it runs: the host loop that builds the chunk list, and the receiver script with its mutable
 variables, one method per callback. Each method is tied to the function on values in `UploadCodec`.
 */
module UploadReceiver {
  import opened Common
  import opened UploadCodec

  /** The chunks the host writes: directories first, then files, then the end record. */
  method UploadChunks(codec: Codec, directories: seq<string>, files: seq<Item>) returns (chunks: seq<Bytes>)
    requires forall file :: file in files ==> file.File?
    ensures Concat(chunks) == Encode(codec, AsItems(directories) + files)
    ensures forall chunk :: chunk in chunks ==> chunk != []
  {
    chunks := DirectoryChunks(codec, directories);
    chunks := FileChunks(codec, files, chunks);
    ConcatAppend(chunks, Line(codec, END_HEADER));
    EncodeEntries(codec, AsItems(directories) + files);
    EntriesAppend(codec, AsItems(directories), files);
    chunks := chunks + [Line(codec, END_HEADER)];
  }

  method DirectoryChunks(codec: Codec, directories: seq<string>) returns (chunks: seq<Bytes>)
    ensures Concat(chunks) == Entries(codec, AsItems(directories))
    ensures forall chunk :: chunk in chunks ==> chunk != []
  {
    chunks := [];
    ghost var items := AsItems(directories);
    for i := 0 to |directories|
      invariant Concat(chunks) == Entries(codec, items[..i])
      invariant forall chunk :: chunk in chunks ==> chunk != []
    {
      var line := Line(codec, HeaderOf(Directory(directories[i])));
      ConcatAppend(chunks, line);
      assert items[..i + 1] == items[..i] + [items[i]];
      EntriesAppend(codec, items[..i], [items[i]]);
      chunks := chunks + [line];
    }
    assert items[..|items|] == items;
  }

  lemma FileStep(codec: Codec, files: seq<Item>, i: nat, chunks: seq<Bytes>)
    requires i < |files| && files[i].File?
    ensures var line := Line(codec, HeaderOf(files[i]));
      && line != []
      && Concat(chunks + [line]) == Concat(chunks) + line
      && Concat(chunks + [line] + [files[i].bytes]) == Concat(chunks) + (line + files[i].bytes)
      && Entries(codec, files[..i + 1]) == Entries(codec, files[..i]) + (line + files[i].bytes)
  {
    var line := Line(codec, HeaderOf(files[i]));
    OneEntry(codec, files[i]);
    hide Entries, Concat;
    ConcatAppend(chunks, line);
    ConcatAppend(chunks + [line], files[i].bytes);
    assert files[..i + 1] == files[..i] + [files[i]];
    EntriesAppend(codec, files[..i], [files[i]]);
  }

  lemma OneEntry(codec: Codec, item: Item)
    ensures Entries(codec, [item]) == Line(codec, HeaderOf(item)) + Body(item)
  {
    assert [item][1..] == [];
  }

  method FileChunks(codec: Codec, files: seq<Item>, before: seq<Bytes>) returns (chunks: seq<Bytes>)
    requires forall file :: file in files ==> file.File?
    requires forall chunk :: chunk in before ==> chunk != []
    ensures Concat(chunks) == Concat(before) + Entries(codec, files)
    ensures forall chunk :: chunk in chunks ==> chunk != []
  {
    chunks := before;
    hide Concat, Line, HeaderOf;
    for i := 0 to |files|
      invariant Concat(chunks) == Concat(before) + Entries(codec, files[..i])
      invariant forall chunk :: chunk in chunks ==> chunk != []
    {
      var line := Line(codec, HeaderOf(files[i]));
      FileStep(codec, files, i, chunks);
      chunks := chunks + [line];
      if files[i].bytes != [] {
        chunks := chunks + [files[i].bytes];
      }
    }
    assert files[..|files|] == files;
  }

  /** The stream of some entries without the end record. */
  function Entries(codec: Codec, items: seq<Item>): Bytes {
    if items == [] then [] else Line(codec, HeaderOf(items[0])) + Body(items[0]) + Entries(codec, items[1..])
  }

  lemma EntriesAppend(codec: Codec, a: seq<Item>, b: seq<Item>)
    ensures Entries(codec, a + b) == Entries(codec, a) + Entries(codec, b)
  {
    if a == [] {
      assert a + b == b;
    } else {
      assert (a + b)[1..] == a[1..] + b;
      EntriesAppend(codec, a[1..], b);
    }
  }

  lemma EncodeEntries(codec: Codec, items: seq<Item>)
    ensures Encode(codec, items) == Entries(codec, items) + Line(codec, END_HEADER)
  {
  }

  function AsItems(directories: seq<string>): (items: seq<Item>)
    ensures |items| == |directories|
    ensures forall i :: 0 <= i < |items| ==> items[i] == Directory(directories[i])
  {
    seq(|directories|, i requires 0 <= i < |directories| => Directory(directories[i]))
  }

  /** The script's variables: `b`, `cur`, `ended`, `inputEnded`, `pending`, `failed`, and the file system it fills. */
  class ReceiverScript {
    var buffer: Bytes
    var current: Option<Stream>
    var ended: bool
    var inputEnded: bool
    var paused: bool
    var pending: nat
    var failed: bool
    var stored: seq<Item>
    var writes: nat

    function View(): Receiver
      reads this
    {
      Receiver(buffer, current, ended, inputEnded, paused, pending, failed, stored, writes)
    }

    constructor ()
      ensures View() == START
    {
      buffer, current, ended, inputEnded := [], None, false, false;
      paused, pending, failed, stored, writes := false, 0, false, [], 0;
    }

    /** `out.end(...)` on the current stream. */
    method CloseCurrent()
      requires current.Some?
      modifies this
      ensures View() == Close(old(View()))
    {
      stored := stored + [File(current.value.path, current.value.mode, current.value.written)];
      current := None;
      pending := pending + 1;
    }

    /** `cur.out.write(part)`, with its answer. */
    method WriteCurrent(accepts: nat -> bool) returns (more: bool)
      requires current.Some? && buffer != []
      modifies this
      ensures View() == WritePart(old(View())) && more == accepts(old(writes))
    {
      var s := current.value;
      var n := Min(s.left, |buffer|);
      var part := buffer[..n];
      buffer := buffer[n..];
      current := Some(s.(written := s.written + part, left := s.left - n));
      more := accepts(writes);
      writes := writes + 1;
    }

    /** The file branch and the directory branch of `pump`. */
    method OpenEntry(h: Header)
      requires current.None?
      modifies this
      ensures View() == Open(h, old(View()))
    {
      if h.path.None? || !TargetAccepts(h.path.value) {
        failed := true;
      } else if h.directory {
        if Clashes(stored, Directory(h.path.value)) {
          failed := true;
        } else {
          stored := stored + [Directory(h.path.value)];
        }
      } else if h.size.None? || h.size.value < 0 || h.mode.None? {
        failed := true;
      } else if Clashes(stored, File(h.path.value, h.mode.value, [])) {
        failed := true;
      } else {
        current := Some(Stream(h.path.value, h.mode.value % 512, [], h.size.value));
        if h.size.value == 0 {
          CloseCurrent();
        }
      }
    }

    /** One turn of the loop in `pump`. */
    method PumpOnce(codec: Codec, accepts: nat -> bool) returns (again: bool)
      modifies this
      ensures PumpTurn(codec, accepts, old(View())) == if again then Again(View()) else Stop(View())
    {
      if failed {
        return false;
      }
      if current.Some? {
        if buffer == [] {
          return false;
        }
        var more := WriteCurrent(accepts);
        if !more {
          paused := true;
          return false;
        }
        if current.value.left == 0 {
          CloseCurrent();
        }
        return true;
      }
      var i := IndexOf(buffer, NEWLINE);
      if i.None? {
        failed := |buffer| > HEADER_LIMIT;
        return false;
      }
      var h := codec.parse(buffer[..i.value]);
      if h.None? {
        failed := true;
        return false;
      }
      buffer := buffer[i.value + 1..];
      if h.value.end {
        ended := true;
        failed := buffer != [];
        return false;
      }
      OpenEntry(h.value);
      return true;
    }

    method PumpBuffer(codec: Codec, accepts: nat -> bool)
      modifies this
      ensures View() == Pump(codec, accepts, old(View()))
    {
      var again := true;
      while again
        invariant Pump(codec, accepts, old(View())) == if again then Pump(codec, accepts, View()) else View()
        decreases again, Work(View())
      {
        again := PumpOnce(codec, accepts);
      }
    }

    method OnData(codec: Codec, accepts: nat -> bool, chunk: Bytes)
      requires Enabled(View(), Data(chunk))
      modifies this
      ensures View() == Handle(codec, accepts, old(View()), Data(chunk))
    {
      if ended {
        failed := true;
        return;
      }
      buffer := buffer + chunk;
      PumpBuffer(codec, accepts);
    }

    method OnDrain(codec: Codec, accepts: nat -> bool)
      requires Enabled(View(), Drain)
      modifies this
      ensures View() == Handle(codec, accepts, old(View()), Drain)
    {
      paused := false;
      PumpBuffer(codec, accepts);
    }

    method OnClosed(codec: Codec, accepts: nat -> bool)
      requires Enabled(View(), Closed)
      modifies this
      ensures View() == Handle(codec, accepts, old(View()), Closed)
    {
      pending := pending - 1;
    }

    method OnEnd(codec: Codec, accepts: nat -> bool)
      requires Enabled(View(), InputEnd)
      modifies this
      ensures View() == Handle(codec, accepts, old(View()), InputEnd)
    {
      inputEnded := true;
      if !ended || current.Some? {
        failed := true;
      }
    }
  }
}
