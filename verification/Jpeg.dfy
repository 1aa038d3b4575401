/**
 The JPEG header reader: it walks marker segments (section B.1.1 of ITU-T T.81) until a frame header, and is compared
 with the printed form of a list of segments.
 */
module Jpeg {
  import opened Common

  datatype Dimensions = Dimensions(width: nat, height: nat)

  /** SOI, TEM and the restart markers stand alone. */
  predicate Standalone(marker: Byte) {
    marker == 0xD8 || marker == 0x01 || 0xD0 <= marker <= 0xD7
  }

  predicate Stops(marker: Byte) {
    marker == 0xD9 || marker == 0xDA
  }

  /** The frame headers: C0 to CF without DHT, JPG and DAC. */
  predicate FrameHeader(marker: Byte) {
    0xC0 <= marker <= 0xC3 || 0xC5 <= marker <= 0xC7 || 0xC9 <= marker <= 0xCB || 0xCD <= marker <= 0xCF
  }

  /** Table B.1 names sixteen markers from C0 on; all but three of them start a frame. */
  lemma FrameHeadersAre(marker: Byte)
    ensures FrameHeader(marker) <==> 0xC0 <= marker < 0xC0 + 16 && marker !in {0xC4, 0xC8, 0xCC}
    ensures FrameHeader(marker) ==> !Standalone(marker) && !Stops(marker)
  {
  }

  function Uint16(b: Bytes, i: nat): nat
    requires i + 1 < |b|
  {
    var high: int := b[i];
    var low: int := b[i + 1];
    high * 256 + low
  }

  /** A number in two bytes, the high one first. */
  function LengthBytes(n: nat): Bytes
    requires n < 0x10000
  {
    [n / 256, n % 256]
  }

  /** The first byte from `i` on that is no fill byte. */
  function SkipFill(b: Bytes, i: nat): (r: nat)
    requires i <= |b|
    ensures i <= r <= |b| && (r < |b| ==> b[r] != 0xFF) && forall k :: i <= k < r ==> b[k] == 0xFF
    decreases |b| - i
  {
    if i < |b| && b[i] == 0xFF then SkipFill(b, i + 1) else i
  }

  /** What the reader finds from an offset on. */
  function Scan(b: Bytes, offset: nat): Option<Dimensions>
    decreases |b| - offset, 0
  {
    if offset + 3 >= |b| then None
    else if b[offset] != 0xFF then Scan(b, offset + 1)
    else
      var i := SkipFill(b, offset);
      if i == |b| || Stops(b[i]) then None
      else AfterMarker(b, b[i], i + 1)
  }

  function AfterMarker(b: Bytes, marker: Byte, at: nat): Option<Dimensions>
    requires at <= |b|
    decreases |b| - at, 1
  {
    if Standalone(marker) then Scan(b, at)
    else if at + 2 > |b| then None
    else
      var length := Uint16(b, at);
      if length < 2 || at + length > |b| then None
      else if FrameHeader(marker) then
        if length < 7 then None else Some(Dimensions(Uint16(b, at + 5), Uint16(b, at + 3)))
      else Scan(b, at + length)
  }

  method ReadUint16Be(bytes: array<Byte>, offset: nat) returns (r: nat)
    requires offset + 1 < bytes.Length
    ensures r == Uint16(bytes[..], offset)
    ensures r < 0x10000 && LengthBytes(r) == bytes[offset..offset + 2]
  {
    var high: int := bytes[offset];
    var low: int := bytes[offset + 1];
    return high * 256 + low;
  }

  /** Terminates on every byte array and reads in bounds only: both are proved with the method. */
  method JpegDimensions(bytes: array<Byte>) returns (r: Option<Dimensions>)
    ensures r == Scan(bytes[..], 2)
  {
    ghost var b := bytes[..];
    var offset := 2;
    while offset + 3 < bytes.Length
      invariant Scan(b, offset) == Scan(b, 2)
      decreases bytes.Length - offset
    {
      if bytes[offset] != 0xFF {
        offset := offset + 1;
        continue;
      }
      ghost var from := offset;
      while offset < bytes.Length && bytes[offset] == 0xFF
        invariant from <= offset <= bytes.Length
        invariant SkipFill(b, offset) == SkipFill(b, from)
        invariant offset == from ==> bytes[offset] == 0xFF
      {
        offset := offset + 1;
      }
      if offset == bytes.Length {
        return None;
      }
      var marker := bytes[offset];
      offset := offset + 1;
      if Stops(marker) {
        return None;
      }
      if Standalone(marker) {
        continue;
      }
      if offset + 2 > bytes.Length {
        return None;
      }
      var length := ReadUint16Be(bytes, offset);
      if length < 2 || offset + length > bytes.Length {
        return None;
      }
      if FrameHeader(marker) {
        if length < 7 {
          return None;
        }
        var height := ReadUint16Be(bytes, offset + 3);
        var width := ReadUint16Be(bytes, offset + 5);
        return Some(Dimensions(width, height));
      }
      offset := offset + length;
    }
    return None;
  }

  // ---------------------------------------------------------------------------------------------------------
  // Printed segments.

  /** A marker behind its fill bytes, alone or with a payload. */
  datatype Segment = Alone(fill: nat, marker: Byte) | Payload(fill: nat, marker: Byte, payload: Bytes)

  predicate WellFormed(s: Segment) {
    match s
    case Alone(_, marker) => Standalone(marker)
    case Payload(_, marker, payload) =>
      !Standalone(marker) && !Stops(marker) && marker != 0xFF && |payload| <= 65533
  }

  function Fill(n: nat): (r: Bytes)
    ensures |r| == n && forall i :: 0 <= i < n ==> r[i] == 0xFF
  {
    seq(n, _ => 0xFF)
  }

  function Print(s: Segment): Bytes
    requires WellFormed(s)
  {
    match s
    case Alone(fill, marker) => Fill(fill + 1) + [marker]
    case Payload(fill, marker, payload) => Fill(fill + 1) + [marker] + (LengthBytes(|payload| + 2) + payload)
  }

  /** The end of the header part: an end of image or start of scan marker, and whatever follows. */
  datatype Ending = Ending(fill: nat, marker: Byte, rest: Bytes)

  function PrintAll(segments: seq<Segment>, end: Ending): Bytes
    requires forall s :: s in segments ==> WellFormed(s)
  {
    if segments == [] then Fill(end.fill + 1) + [end.marker] + end.rest
    else Print(segments[0]) + PrintAll(segments[1..], end)
  }

  /** The dimensions in a frame header's payload: precision, then height, then width. */
  function FrameDimensions(payload: Bytes): Option<Dimensions> {
    if |payload| < 5 then None
    else Some(Dimensions(Uint16(payload, 3), Uint16(payload, 1)))
  }

  /** The dimensions of the first frame header, when its payload is long enough to hold them. */
  function FirstFrame(segments: seq<Segment>): Option<Dimensions> {
    if segments == [] then None
    else if segments[0].Payload? && FrameHeader(segments[0].marker) then FrameDimensions(segments[0].payload)
    else FirstFrame(segments[1..])
  }

  /** `text` stands at position `i` of `b`. */
  predicate At(b: Bytes, i: nat, text: Bytes) {
    i + |text| <= |b| && b[i..i + |text|] == text
  }

  lemma AtSplit(b: Bytes, i: nat, x: Bytes, y: Bytes)
    requires At(b, i, x + y)
    ensures At(b, i, x) && At(b, i + |x|, y)
  {
    var whole := b[i..i + |x + y|];
    assert b[i..i + |x|] == whole[..|x|] == x;
    assert b[i + |x|..i + |x| + |y|] == whole[|x|..] == y;
  }

  lemma AtByte(b: Bytes, i: nat, text: Bytes, k: nat)
    requires At(b, i, text) && k < |text|
    ensures b[i + k] == text[k]
  {
    assert b[i..i + |text|][k] == b[i + k];
  }

  /** Fill bytes are skipped up to the marker behind them. */
  lemma SkipsTo(b: Bytes, i: nat, n: nat, marker: Byte)
    requires n > 0 && At(b, i, Fill(n) + [marker]) && marker != 0xFF
    ensures i + n < |b| && b[i] == 0xFF && SkipFill(b, i) == i + n && b[i + n] == marker
  {
    var text := Fill(n) + [marker];
    forall k | 0 <= k <= n
      ensures b[i + k] == text[k]
    {
      AtByte(b, i, text, k);
    }
    assert text[n] == marker;
    forall j | i <= j < i + n
      ensures b[j] == 0xFF
    {
      assert b[i + (j - i)] == text[j - i];
    }
    SkipsFill(b, i, n);
  }

  lemma {:induction false} SkipsFill(b: Bytes, i: nat, n: nat)
    requires i + n < |b| && b[i + n] != 0xFF
    requires forall j :: i <= j < i + n ==> b[j] == 0xFF
    ensures SkipFill(b, i) == i + n
    decreases n
  {
    if n > 0 {
      SkipsFill(b, i + 1, n - 1);
    }
  }

  /** A marker behind fill bytes is what the reader looks at next. */
  lemma ScanMarker(b: Bytes, i: nat, fill: nat, marker: Byte)
    requires At(b, i, Fill(fill + 1) + [marker]) && marker != 0xFF && i + 3 < |b|
    ensures i + fill + 2 <= |b|
    ensures Scan(b, i) == if Stops(marker) then None else AfterMarker(b, marker, i + fill + 2)
  {
    SkipsTo(b, i, fill + 1, marker);
  }

  lemma LengthRead(b: Bytes, at: nat, n: nat)
    requires n < 0x10000 && At(b, at, LengthBytes(n))
    ensures at + 1 < |b| && Uint16(b, at) == n
  {
    AtByte(b, at, LengthBytes(n), 0);
    AtByte(b, at, LengthBytes(n), 1);
  }

  lemma DimensionsRead(b: Bytes, at: nat, payload: Bytes)
    requires At(b, at, payload) && |payload| >= 5
    ensures Some(Dimensions(Uint16(b, at + 3), Uint16(b, at + 1))) == FrameDimensions(payload)
  {
    AtByte(b, at, payload, 1);
    AtByte(b, at, payload, 2);
    AtByte(b, at, payload, 3);
    AtByte(b, at, payload, 4);
  }

  /** What the reader does with the length and payload it reads behind a marker. */
  lemma AfterReads(b: Bytes, at: nat, marker: Byte, payload: Bytes)
    requires !Standalone(marker) && at + 2 + |payload| <= |b| && Uint16(b, at) == |payload| + 2
    requires |payload| >= 5 ==>
               Some(Dimensions(Uint16(b, at + 5), Uint16(b, at + 3))) == FrameDimensions(payload)
    ensures AfterMarker(b, marker, at) ==
            if FrameHeader(marker) then FrameDimensions(payload) else Scan(b, at + 2 + |payload|)
  {
  }

  /** Behind a marker with a payload the reader takes the dimensions, or jumps over the payload. */
  lemma AfterPayload(b: Bytes, at: nat, marker: Byte, payload: Bytes)
    requires !Standalone(marker) && |payload| <= 65533
    requires At(b, at, LengthBytes(|payload| + 2) + payload)
    ensures AfterMarker(b, marker, at) ==
            if FrameHeader(marker) then FrameDimensions(payload) else Scan(b, at + 2 + |payload|)
  {
    AtSplit(b, at, LengthBytes(|payload| + 2), payload);
    LengthRead(b, at, |payload| + 2);
    if |payload| >= 5 {
      DimensionsRead(b, at + 2, payload);
    }
    AfterReads(b, at, marker, payload);
  }

  lemma ScanPayload(b: Bytes, i: nat, fill: nat, marker: Byte, payload: Bytes)
    requires !Standalone(marker) && !Stops(marker) && marker != 0xFF && |payload| <= 65533
    requires At(b, i, Fill(fill + 1) + [marker] + (LengthBytes(|payload| + 2) + payload))
    ensures Scan(b, i) ==
            if FrameHeader(marker) then FrameDimensions(payload) else Scan(b, i + fill + 4 + |payload|)
  {
    var front, body := Fill(fill + 1) + [marker], LengthBytes(|payload| + 2) + payload;
    assert |body| >= 2;
    AtSplit(b, i, front, body);
    AfterPayload(b, i + fill + 2, marker, payload);
    ScanMarker(b, i, fill, marker);
  }

  /** What a printed segment makes the reader do. */
  lemma ScanSegment(b: Bytes, i: nat, s: Segment)
    requires WellFormed(s) && At(b, i, Print(s)) && i + 3 < |b|
    ensures |Print(s)| >= 2
    ensures Scan(b, i) ==
            if s.Payload? && FrameHeader(s.marker) then FrameDimensions(s.payload)
            else Scan(b, i + |Print(s)|)
  {
    if s.Alone? {
      ScanMarker(b, i, s.fill, s.marker);
    } else {
      ScanPayload(b, i, s.fill, s.marker, s.payload);
    }
  }

  /** An ending gives nothing, however little or much follows it. */
  lemma ScanEnding(b: Bytes, i: nat, end: Ending)
    requires Stops(end.marker) && At(b, i, PrintAll([], end))
    ensures Scan(b, i) == None
  {
    if i + 3 < |b| {
      AtSplit(b, i, Fill(end.fill + 1) + [end.marker], end.rest);
      ScanMarker(b, i, end.fill, end.marker);
    }
  }

  lemma {:induction false} PrintedLength(segments: seq<Segment>, end: Ending)
    requires forall s :: s in segments ==> WellFormed(s)
    ensures |PrintAll(segments, end)| >= 2 && forall s :: s in segments ==> |Print(s)| >= 2
    decreases |segments|
  {
    if segments != [] {
      PrintedLength(segments[1..], end);
    }
  }

  /** The same with more text behind the segment. */
  lemma SegmentLength(s: Segment)
    requires WellFormed(s)
    ensures |Print(s)| >= 2
  {
  }

  lemma ScanFirst(b: Bytes, i: nat, s: Segment, rest: Bytes) returns (next: nat)
    requires WellFormed(s) && At(b, i, Print(s) + rest) && |rest| >= 2
    ensures At(b, next, rest)
    ensures Scan(b, i) ==
            if s.Payload? && FrameHeader(s.marker) then FrameDimensions(s.payload) else Scan(b, next)
  {
    SegmentLength(s);
    hide Print, Scan;
    AtSplit(b, i, Print(s), rest);
    ScanSegment(b, i, s);
    next := i + |Print(s)|;
  }

  lemma {:induction false} ScanSegments(b: Bytes, i: nat, segments: seq<Segment>, end: Ending)
    requires (forall s :: s in segments ==> WellFormed(s)) && Stops(end.marker)
    requires At(b, i, PrintAll(segments, end))
    ensures Scan(b, i) == FirstFrame(segments)
    decreases |segments|
  {
    if segments == [] {
      ScanEnding(b, i, end);
    } else {
      PrintedLength(segments[1..], end);
      var next := ScanFirst(b, i, segments[0], PrintAll(segments[1..], end));
      ScanSegments(b, next, segments[1..], end);
    }
  }

  /** For every well-formed header the reader returns the dimensions of the first frame header, or nothing. */
  lemma ReaderFindsFirstFrame(segments: seq<Segment>, end: Ending)
    requires (forall s :: s in segments ==> WellFormed(s)) && Stops(end.marker)
    ensures Scan([0xFF, 0xD8] + PrintAll(segments, end), 2) == FirstFrame(segments)
  {
    var b := [0xFF, 0xD8] + PrintAll(segments, end);
    assert b[2..2 + |PrintAll(segments, end)|] == PrintAll(segments, end);
    ScanSegments(b, 2, segments, end);
  }

  /** A complete frame header for `d` stands at `at`: marker, length of at least seven, height, width. */
  predicate FrameAt(b: Bytes, at: nat, d: Dimensions) {
    && 0 < at && at + 7 < |b| && b[at - 1] == 0xFF && FrameHeader(b[at])
    && Uint16(b, at + 1) >= 7 && at + 1 + Uint16(b, at + 1) <= |b|
    && d == Dimensions(Uint16(b, at + 6), Uint16(b, at + 4))
  }

  /** On any bytes at all, dimensions come out of a complete frame header that stands in them. */
  lemma {:induction false} DimensionsComeFromAFrame(b: Bytes, offset: nat) returns (at: nat)
    requires Scan(b, offset).Some?
    ensures at > offset && FrameAt(b, at, Scan(b, offset).value)
    decreases |b| - offset
  {
    if b[offset] != 0xFF {
      at := DimensionsComeFromAFrame(b, offset + 1);
    } else {
      var i := SkipFill(b, offset);
      assert i > offset && b[i - 1] == 0xFF;
      if Standalone(b[i]) {
        at := DimensionsComeFromAFrame(b, i + 1);
      } else if FrameHeader(b[i]) {
        at := i;
      } else {
        at := DimensionsComeFromAFrame(b, i + 1 + Uint16(b, i + 1));
      }
    }
  }
}
