/** The line splitter and lexer of the structural source reader, over UTF-16 code units. */
module Lexer {
  import opened Common
  import opened Offsets

  datatype Kind = Quoted | Identifier | Number | Delimiter | Operator | Punctuation

  /** Positions are offsets into the whole text. */
  datatype Lexeme = Lexeme(text: Text, kind: Kind, start: nat, end: nat)

  datatype Line = Line(text: Text, lineNumber: nat, start: nat, end: nat, lexemes: seq<Lexeme>)

  const LF := 10
  const CR := 13
  const BACKSLASH := 92

  /** What `trim` removes. */
  predicate IsSpace(c: Unit) {
    || 9 <= c <= 13 || c == 32 || c == 160 || c == 5760 || 8192 <= c <= 8202
    || c == 8232 || c == 8233 || c == 8239 || c == 8287 || c == 12288 || c == 65279
  }

  predicate IsQuote(c: Unit) {
    c == 34 || c == 39 || c == 96
  }

  predicate IsIdentifierStart(c: Unit) {
    c == 95 || c == 36 || 65 <= c <= 90 || 97 <= c <= 122 || (c > 127 && !IsSpace(c))
  }

  predicate IsNumberChar(c: Unit) {
    48 <= c <= 57
  }

  predicate IsIdentifierContinue(c: Unit) {
    IsIdentifierStart(c) || IsNumberChar(c) || c == 45 || c == 46 || c == 58
  }

  predicate IsNumberContinue(c: Unit) {
    IsNumberChar(c) || c == 46
  }

  function PunctuationKind(c: Unit): Kind {
    // ( ) [ ] { } < >
    if c == 40 || c == 41 || c == 91 || c == 93 || c == 123 || c == 125 || c == 60 || c == 62 then Delimiter
    // + - * % = ! & | ^ ~ ? : .
    else if c == 43 || c == 45 || c == 42 || c == 37 || c == 61 || c == 33 || c == 38 || c == 124 || c == 94
         || c == 126 || c == 63 || c == 58 || c == 46 then Operator
    else Punctuation
  }

  // ---------------------------------------------------------------------------------------------------------
  // What a lexeme is.

  /** Units that stay inside a quotation: escaped pairs, and anything but the quote and the backslash. */
  predicate Inner(line: Text, i: nat, e: nat, quote: Unit)
    requires e <= |line|
    decreases e - i
  {
    i == e
    || (i < e && line[i] != BACKSLASH && line[i] != quote && Inner(line, i + 1, e, quote))
    || (i + 1 < e && line[i] == BACKSLASH && Inner(line, i + 2, e, quote))
  }

  /** From its quote to the first one that is not escaped, or to the end of the line when there is none. */
  predicate QuotedText(line: Text, s: nat, e: nat)
    requires s < e <= |line|
  {
    var quote := line[s];
    || (s + 1 < e && line[e - 1] == quote && Inner(line, s + 1, e - 1, quote))
    || (e == |line| && (Inner(line, s + 1, e, quote)
                        || (s + 1 < e && line[e - 1] == BACKSLASH && Inner(line, s + 1, e - 1, quote))))
  }

  /** The longest stretch of units that satisfy `more`, behind the first. */
  predicate LongestRun(line: Text, s: nat, e: nat, more: Unit -> bool)
    requires s < e <= |line|
  {
    (forall k :: s < k < e ==> more(line[k])) && (e < |line| ==> !more(line[e]))
  }

  /** The text between `s` and `e` is one lexeme of this kind, as long as it can be. */
  predicate Shape(line: Text, s: nat, e: nat, kind: Kind)
    requires s < e <= |line|
  {
    var c := line[s];
    && !IsSpace(c)
    && if IsQuote(c) then kind == Quoted && QuotedText(line, s, e)
       else if IsIdentifierStart(c) then kind == Identifier && LongestRun(line, s, e, IsIdentifierContinue)
       else if IsNumberChar(c) then kind == Number && LongestRun(line, s, e, IsNumberContinue)
       else kind == PunctuationKind(c) && e == s + 1
  }

  predicate AllSpace(line: Text, from: nat, to: nat)
    requires to <= |line|
  {
    forall k :: from <= k < to ==> IsSpace(line[k])
  }

  /** The next lexeme of the line from `i` on, behind white space only. */
  predicate IsLexeme(line: Text, offset: nat, i: nat, l: Lexeme)
    requires i <= |line|
  {
    && offset + i <= l.start < l.end <= offset + |line|
    && l.text == line[l.start - offset..l.end - offset]
    && AllSpace(line, i, l.start - offset)
    && Shape(line, l.start - offset, l.end - offset, l.kind)
  }

  /** The lexemes found between `i` and `to`, the last of them ending at `to`. */
  predicate LexedUpTo(line: Text, offset: nat, i: nat, lexemes: seq<Lexeme>, to: nat)
    requires i <= |line|
    decreases |lexemes|
  {
    if lexemes == [] then i == to
    else IsLexeme(line, offset, i, lexemes[0]) && LexedUpTo(line, offset, lexemes[0].end - offset, lexemes[1..], to)
  }

  function EndOf(lexemes: seq<Lexeme>, offset: nat): int {
    if lexemes == [] then 0 else lexemes[|lexemes| - 1].end - offset
  }

  /** These are the lexemes of the line: in order, apart, and with nothing but white space around them. */
  predicate Lexed(line: Text, offset: nat, lexemes: seq<Lexeme>) {
    && 0 <= EndOf(lexemes, offset) <= |line|
    && LexedUpTo(line, offset, 0, lexemes, EndOf(lexemes, offset))
    && AllSpace(line, EndOf(lexemes, offset), |line|)
  }

  // ---------------------------------------------------------------------------------------------------------
  // The loops.

  lemma {:induction false} InnerSnoc(line: Text, i: nat, e: nat, quote: Unit)
    requires e < |line| && Inner(line, i, e, quote)
    ensures line[e] != BACKSLASH && line[e] != quote ==> Inner(line, i, e + 1, quote)
    ensures line[e] == BACKSLASH && e + 2 <= |line| ==> Inner(line, i, e + 2, quote)
    decreases e - i
  {
    if i < e {
      if line[i] == BACKSLASH { InnerSnoc(line, i + 2, e, quote); } else { InnerSnoc(line, i + 1, e, quote); }
    }
  }

  method ReadQuoted(line: Text, start: nat) returns (value: Text, end: nat)
    requires start < |line|
    ensures start < end <= |line| && value == line[start..end] && QuotedText(line, start, end)
  {
    var quote := line[start];
    var i := start + 1;
    while i < |line|
      invariant start < i
      invariant i <= |line| ==> Inner(line, start + 1, i, quote)
      invariant i > |line| ==>
        && i == |line| + 1 && start + 1 < |line| && line[|line| - 1] == BACKSLASH
        && Inner(line, start + 1, |line| - 1, quote)
      decreases |line| - i
    {
      InnerSnoc(line, start + 1, i, quote);
      if line[i] == BACKSLASH {
        i := i + 2;
        continue;
      }
      if line[i] == quote {
        return line[start..i + 1], i + 1;
      }
      i := i + 1;
    }
    return line[start..], |line|;
  }

  method RunEnd(line: Text, start: nat, more: Unit -> bool) returns (end: nat)
    requires start < |line|
    ensures start < end <= |line| && LongestRun(line, start, end, more)
  {
    end := start + 1;
    while end < |line| && more(line[end])
      invariant start < end <= |line|
      invariant forall k :: start < k < end ==> more(line[k])
    {
      end := end + 1;
    }
  }

  /** One more lexeme behind those found so far. */
  lemma {:induction false} LexedSnoc(line: Text, offset: nat, i: nat, lexemes: seq<Lexeme>, from: nat, l: Lexeme)
    requires i <= |line| && from <= |line|
    requires LexedUpTo(line, offset, i, lexemes, from) && IsLexeme(line, offset, from, l)
    ensures LexedUpTo(line, offset, i, lexemes + [l], l.end - offset)
    decreases |lexemes|
  {
    if lexemes == [] {
      assert [l][1..] == [] && lexemes + [l] == [l];
    } else {
      assert (lexemes + [l])[1..] == lexemes[1..] + [l];
      LexedSnoc(line, offset, lexemes[0].end - offset, lexemes[1..], from, l);
    }
  }

  /** The branches of the loop body at a unit that is no white space. */
  method NextLexeme(line: Text, offset: nat, i: nat) returns (l: Lexeme)
    requires i < |line| && !IsSpace(line[i])
    ensures l.start == offset + i && IsLexeme(line, offset, i, l)
  {
    var c := line[i];
    var end, kind := i + 1, PunctuationKind(c);
    if IsQuote(c) {
      var value;
      value, end := ReadQuoted(line, i);
      kind := Quoted;
    } else if IsIdentifierStart(c) {
      end := RunEnd(line, i, IsIdentifierContinue);
      kind := Identifier;
    } else if IsNumberChar(c) {
      end := RunEnd(line, i, IsNumberContinue);
      kind := Number;
    }
    l := Lexeme(line[i..end], kind, offset + i, offset + end);
  }

  /** A lexeme found behind white space is the next one. */
  lemma LexemeTaken(line: Text, offset: nat, lexemes: seq<Lexeme>, i: nat, l: Lexeme)
    requires 0 <= EndOf(lexemes, offset) <= i < |line| && l.start == offset + i
    requires LexedUpTo(line, offset, 0, lexemes, EndOf(lexemes, offset))
    requires AllSpace(line, EndOf(lexemes, offset), i) && IsLexeme(line, offset, i, l)
    ensures LexedUpTo(line, offset, 0, lexemes + [l], l.end - offset)
    ensures i < l.end - offset == EndOf(lexemes + [l], offset) <= |line|
  {
    assert IsLexeme(line, offset, EndOf(lexemes, offset), l);
    hide LexedUpTo, Shape;
    LexedSnoc(line, offset, 0, lexemes, EndOf(lexemes, offset), l);
  }

  method LexLine(line: Text, offset: nat) returns (lexemes: seq<Lexeme>)
    ensures Lexed(line, offset, lexemes)
  {
    lexemes := [];
    var i := 0;
    assert LexedUpTo(line, offset, 0, lexemes, 0);
    hide LexedUpTo, IsLexeme;
    while i < |line|
      invariant 0 <= EndOf(lexemes, offset) <= i <= |line|
      invariant LexedUpTo(line, offset, 0, lexemes, EndOf(lexemes, offset))
      invariant AllSpace(line, EndOf(lexemes, offset), i)
      decreases |line| - i
    {
      if IsSpace(line[i]) {
        i := i + 1;
        continue;
      }
      var l := NextLexeme(line, offset, i);
      LexemeTaken(line, offset, lexemes, i, l);
      lexemes := lexemes + [l];
      i := l.end - offset;
    }
  }

  // ---------------------------------------------------------------------------------------------------------
  // The lexing of a line is determined.

  lemma {:induction false} InnerStops(line: Text, i: nat, e: nat, f: nat, quote: Unit)
    requires quote != BACKSLASH && i <= e < f <= |line|
    requires Inner(line, i, e, quote) && line[e] == quote
    ensures !Inner(line, i, f, quote)
    decreases e - i
  {
    if i < e {
      if line[i] == BACKSLASH { InnerStops(line, i + 2, e, f, quote); } else { InnerStops(line, i + 1, e, f, quote); }
    }
  }

  /** A text inside a quotation cannot end just behind an unescaped backslash, and in front of it too. */
  lemma {:induction false} InnerNotBoth(line: Text, i: nat, e: nat, quote: Unit)
    requires i <= e < |line| && Inner(line, i, e, quote) && line[e] == BACKSLASH
    ensures !Inner(line, i, e + 1, quote)
    decreases e - i
  {
    if i < e {
      if line[i] == BACKSLASH { InnerNotBoth(line, i + 2, e, quote); } else { InnerNotBoth(line, i + 1, e, quote); }
    }
  }

  lemma QuotedUnique(line: Text, s: nat, e: nat, f: nat)
    requires s < e < f <= |line| && IsQuote(line[s])
    ensures !(QuotedText(line, s, e) && QuotedText(line, s, f))
  {
    var quote := line[s];
    if QuotedText(line, s, e) && QuotedText(line, s, f) {
      InnerStops(line, s + 1, e - 1, f, quote);
      if e - 1 < f - 1 { InnerStops(line, s + 1, e - 1, f - 1, quote); }
    }
  }

  lemma ShapeUnique(line: Text, s: nat, e: nat, kind: Kind, f: nat, kind': Kind)
    requires s < e <= |line| && s < f <= |line|
    requires Shape(line, s, e, kind) && Shape(line, s, f, kind')
    ensures e == f && kind == kind'
  {
    if IsQuote(line[s]) {
      if e < f { QuotedUnique(line, s, e, f); }
      if f < e { QuotedUnique(line, s, f, e); }
    }
  }

  lemma LexemeUnique(line: Text, offset: nat, i: nat, l: Lexeme, m: Lexeme)
    requires i <= |line| && IsLexeme(line, offset, i, l) && IsLexeme(line, offset, i, m)
    ensures l == m
  {
    var (s, t) := (l.start - offset, m.start - offset);
    assert !(s < t) && !(t < s);
    ShapeUnique(line, s, l.end - offset, l.kind, m.end - offset, m.kind);
  }

  lemma {:induction false} LexingUniqueFrom(
    line: Text, offset: nat, i: nat, a: seq<Lexeme>, x: nat, b: seq<Lexeme>, y: nat)
    requires i <= |line| && x <= |line| && y <= |line|
    requires LexedUpTo(line, offset, i, a, x) && AllSpace(line, x, |line|)
    requires LexedUpTo(line, offset, i, b, y) && AllSpace(line, y, |line|)
    ensures a == b
    decreases |a|
  {
    if a != [] && b != [] {
      LexemeUnique(line, offset, i, a[0], b[0]);
      LexingUniqueFrom(line, offset, a[0].end - offset, a[1..], x, b[1..], y);
      assert a == [a[0]] + a[1..] && b == [b[0]] + b[1..];
    }
  }

  /** Nothing else is a lexing of the line. */
  lemma LexingUnique(line: Text, offset: nat, a: seq<Lexeme>, b: seq<Lexeme>)
    requires Lexed(line, offset, a) && Lexed(line, offset, b)
    ensures a == b
  {
    LexingUniqueFrom(line, offset, 0, a, EndOf(a, offset), b, EndOf(b, offset));
  }

  /**
   Each lexeme's text is the line's text at its positions, and a later one starts behind the end of an earlier one.
   */
  lemma {:induction false} LexemesInLine(line: Text, offset: nat, i: nat, lexemes: seq<Lexeme>, to: nat, k: nat)
    requires i <= |line| && LexedUpTo(line, offset, i, lexemes, to) && k < |lexemes|
    ensures offset + i <= lexemes[k].start < lexemes[k].end <= offset + |line|
    ensures lexemes[k].text == line[lexemes[k].start - offset..lexemes[k].end - offset]
    ensures forall j :: 0 <= j < k ==> lexemes[j].end <= lexemes[k].start
    decreases |lexemes|
  {
    if k > 0 {
      LexemesInLine(line, offset, lexemes[0].end - offset, lexemes[1..], to, k - 1);
      assert forall j :: 0 < j < k ==> lexemes[j] == lexemes[1..][j - 1];
    }
  }

  // ---------------------------------------------------------------------------------------------------------
  // Lines.

  /** Where the next line starts when a line's text ends at `end`. */
  function NextStart(text: Text, end: nat): nat {
    if end < |text| && text[end] == LF then end + 1 else end + 2
  }

  /** A line without its terminator, which is a line feed, with the carriage return before it if there is one. */
  predicate IsLine(text: Text, start: nat, number: nat, l: Line) {
    && l.start == start <= l.end < |text| && l.lineNumber == number
    && l.text == text[start..l.end] && LF !in l.text
    && Lexed(l.text, start, l.lexemes)
    && if text[l.end] == LF then !(start < l.end && text[l.end - 1] == CR)
       else text[l.end] == CR && l.end + 1 < |text| && text[l.end + 1] == LF
  }

  /** What is left behind the last line feed. */
  predicate IsLastLine(text: Text, start: nat, number: nat, l: Line) {
    && l.start == start <= l.end == |text| && l.lineNumber == number
    && l.text == text[start..] && LF !in l.text
    && Lexed(l.text, start, l.lexemes)
  }

  /** The terminated lines found so far, up to a line start. */
  predicate LinesUpTo(text: Text, start: nat, number: nat, lines: seq<Line>, to: nat)
    decreases |lines|
  {
    if lines == [] then start == to
    else
      && IsLine(text, start, number, lines[0])
      && LinesUpTo(text, NextStart(text, lines[0].end), number + 1, lines[1..], to)
  }

  /** The lines of a text. */
  predicate IsSplit(text: Text, lines: seq<Line>) {
    var n := |lines| - 1;
    && n >= 0
    && LinesUpTo(text, 0, 1, lines[..n], lines[n].start)
    && IsLastLine(text, lines[n].start, n + 1, lines[n])
  }

  lemma {:induction false} LinesSnoc(text: Text, start: nat, number: nat, lines: seq<Line>, to: nat, l: Line)
    requires LinesUpTo(text, start, number, lines, to) && IsLine(text, to, number + |lines|, l)
    ensures LinesUpTo(text, start, number, lines + [l], NextStart(text, l.end))
    decreases |lines|
  {
    if lines == [] {
      assert (lines + [l])[1..] == [];
    } else {
      assert (lines + [l])[1..] == lines[1..] + [l];
      LinesSnoc(text, NextStart(text, lines[0].end), number + 1, lines[1..], to, l);
    }
  }

  /** The line that ends at the line feed at `i`. */
  method LineAt(text: Text, start: nat, number: nat, i: nat) returns (l: Line)
    requires start <= i < |text| && text[i] == LF && LF !in text[start..i]
    ensures IsLine(text, start, number, l) && NextStart(text, l.end) == i + 1
  {
    var end := if i > start && text[i - 1] == CR then i - 1 else i;
    var lexemes := LexLine(text[start..end], start);
    l := Line(text[start..end], number, start, end, lexemes);
    assert text[start..end] == text[start..i][..end - start];
  }

  /** Ends a line at the line feed at `i`. */
  method EndLine(text: Text, lines: seq<Line>, lineNumber: nat, start: nat, i: nat) returns (longer: seq<Line>)
    requires start <= i < |text| && text[i] == LF && LF !in text[start..i]
    requires LinesUpTo(text, 0, 1, lines, start) && lineNumber == |lines| + 1
    ensures |longer| == |lines| + 1 && LinesUpTo(text, 0, 1, longer, i + 1)
  {
    hide LinesUpTo, IsLine;
    var l := LineAt(text, start, lineNumber, i);
    LinesSnoc(text, 0, 1, lines, start, l);
    longer := lines + [l];
  }

  lemma NoFeedSnoc(text: Text, start: nat, i: nat)
    requires start <= i < |text| && LF !in text[start..i] && text[i] != LF
    ensures LF !in text[start..i + 1]
  {
    assert text[start..i + 1] == text[start..i] + [text[i]];
  }

  lemma SplitDone(text: Text, lines: seq<Line>, start: nat, last: Line)
    requires LinesUpTo(text, 0, 1, lines, start) && IsLastLine(text, start, |lines| + 1, last)
    ensures IsSplit(text, lines + [last])
  {
    assert (lines + [last])[..|lines|] == lines;
  }

  method SplitLines(text: Text) returns (lines: seq<Line>)
    ensures IsSplit(text, lines)
  {
    lines := [];
    var start, lineNumber := 0, 1;
    assert LinesUpTo(text, 0, 1, lines, start);
    hide LinesUpTo, IsLine, IsLastLine, IsSplit;
    for i := 0 to |text|
      invariant start <= i && lineNumber == |lines| + 1
      invariant LF !in text[start..i]
      invariant LinesUpTo(text, 0, 1, lines, start)
    {
      if text[i] == LF {
        lines := EndLine(text, lines, lineNumber, start, i);
        start := i + 1;
        lineNumber := lineNumber + 1;
      } else {
        NoFeedSnoc(text, start, i);
      }
    }
    assert text[start..|text|] == text[start..];
    var last := LastLine(text, start, lineNumber);
    SplitDone(text, lines, start, last);
    lines := lines + [last];
  }

  /** What follows the last line feed. */
  method LastLine(text: Text, start: nat, number: nat) returns (l: Line)
    requires start <= |text| && LF !in text[start..]
    ensures IsLastLine(text, start, number, l)
  {
    var lexemes := LexLine(text[start..], start);
    l := Line(text[start..], number, start, |text|, lexemes);
  }

  // ---------------------------------------------------------------------------------------------------------
  // Nothing is lost.

  /** Terminated lines, each with its terminator put back. */
  function Rebuild(text: Text, lines: seq<Line>): Text {
    if lines == [] then []
    else
      var end, next := lines[0].end, NextStart(text, lines[0].end);
      lines[0].text + (if next <= |text| then text[end..next] else []) + Rebuild(text, lines[1..])
  }

  lemma {:induction false} RebuildUpTo(text: Text, start: nat, number: nat, lines: seq<Line>, to: nat)
    requires start <= |text| && LinesUpTo(text, start, number, lines, to)
    ensures start <= to <= |text| && Rebuild(text, lines) == text[start..to]
    decreases |lines|
  {
    if lines != [] {
      FirstOfLines(text, start, number, lines, to);
      LineText(text, start, number, lines[0]);
      hide LinesUpTo, IsLine, NextStart;
      var end, next := lines[0].end, NextStart(text, lines[0].end);
      RebuildUpTo(text, next, number + 1, lines[1..], to);
      ThreeSlices(text, start, end, next, to);
    }
  }

  lemma LineText(text: Text, start: nat, number: nat, l: Line)
    requires IsLine(text, start, number, l)
    ensures l.end <= |text| && l.text == text[start..l.end]
  {
  }

  lemma ThreeSlices(text: Text, a: nat, b: nat, c: nat, d: nat)
    requires a <= b <= c <= d <= |text|
    ensures text[a..b] + text[b..c] + text[c..d] == text[a..d]
  {
  }

  /** The lines and their terminators, put together, are the text. */
  lemma LinesRebuildText(text: Text, lines: seq<Line>)
    requires IsSplit(text, lines)
    ensures Rebuild(text, lines[..|lines| - 1]) + lines[|lines| - 1].text == text
  {
    hide LinesUpTo, Rebuild;
    var n := |lines| - 1;
    RebuildUpTo(text, 0, 1, lines[..n], lines[n].start);
    assert text == text[0..lines[n].start] + text[lines[n].start..];
  }

  lemma {:induction false} LinesApart(text: Text, start: nat, number: nat, lines: seq<Line>, to: nat, i: nat)
    requires LinesUpTo(text, start, number, lines, to) && i < |lines|
    ensures start <= lines[i].start && IsLine(text, lines[i].start, number + i, lines[i]) && lines[i].end < to
    ensures forall j :: 0 <= j < i ==> lines[j].end < lines[i].start
    decreases |lines|
  {
    FirstOfLines(text, start, number, lines, to);
    hide *;
    var next := NextStart(text, lines[0].end);
    if i > 0 {
      LinesApart(text, next, number + 1, lines[1..], to, i - 1);
      assert forall j :: 0 < j < i ==> lines[j] == lines[1..][j - 1];
    } else {
      RestBehind(text, next, number + 1, lines[1..], to);
    }
  }

  lemma FirstOfLines(text: Text, start: nat, number: nat, lines: seq<Line>, to: nat)
    requires LinesUpTo(text, start, number, lines, to) && lines != []
    ensures IsLine(text, start, number, lines[0])
    ensures lines[0].start == start <= lines[0].end < NextStart(text, lines[0].end) <= |text|
    ensures LinesUpTo(text, NextStart(text, lines[0].end), number + 1, lines[1..], to)
  {
    hide Lexed;
  }

  lemma {:induction false} RestBehind(text: Text, start: nat, number: nat, lines: seq<Line>, to: nat)
    requires LinesUpTo(text, start, number, lines, to)
    ensures start <= to
    decreases |lines|
  {
    if lines != [] {
      FirstOfLines(text, start, number, lines, to);
      hide *;
      RestBehind(text, NextStart(text, lines[0].end), number + 1, lines[1..], to);
    }
  }

  /** Lines come in order and number, and each holds the text between its positions. */
  lemma LineAtIndex(text: Text, lines: seq<Line>, i: nat)
    requires IsSplit(text, lines) && i < |lines|
    ensures lines[i].lineNumber == i + 1 && lines[i].start <= lines[i].end <= |text|
    ensures lines[i].text == text[lines[i].start..lines[i].end]
    ensures Lexed(lines[i].text, lines[i].start, lines[i].lexemes)
    ensures forall j :: 0 <= j < i ==> lines[j].end < lines[i].start
  {
    var n := |lines| - 1;
    if i < n {
      LinesApart(text, 0, 1, lines[..n], lines[n].start, i);
      assert forall j :: 0 <= j <= i ==> lines[..n][j] == lines[j];
    } else {
      forall j | 0 <= j < n
        ensures lines[j].end < lines[n].start
      {
        LinesApart(text, 0, 1, lines[..n], lines[n].start, j);
      }
    }
  }

  /**
   Every lexeme's text is the slice of the whole text at its positions, and over all lines the lexemes' ranges are
   disjoint and increasing.
   */
  lemma LexemesSliceText(text: Text, lines: seq<Line>, i: nat, k: nat)
    requires IsSplit(text, lines) && i < |lines| && k < |lines[i].lexemes|
    ensures
      var l := lines[i].lexemes[k];
      && lines[i].start <= l.start < l.end <= lines[i].end <= |text|
      && l.text == text[l.start..l.end]
      && (forall j :: 0 <= j < k ==> lines[i].lexemes[j].end <= l.start)
      && (forall h :: 0 <= h < i ==> lines[h].end < l.start)
  {
    LineAtIndex(text, lines, i);
    LexemeSlicesLine(text, lines[i], k);
  }

  lemma LexemeSlicesLine(text: Text, line: Line, k: nat)
    requires line.start <= line.end <= |text| && line.text == text[line.start..line.end]
    requires Lexed(line.text, line.start, line.lexemes) && k < |line.lexemes|
    ensures
      var l := line.lexemes[k];
      && line.start <= l.start < l.end <= line.end
      && l.text == text[l.start..l.end]
      && (forall j :: 0 <= j < k ==> line.lexemes[j].end <= l.start)
  {
    LexemesInLine(line.text, line.start, 0, line.lexemes, EndOf(line.lexemes, line.start), k);
    hide LexedUpTo, Lexed, EndOf;
    var l := line.lexemes[k];
    SliceOfSlice(text, line.start, line.end, l.start, l.end);
  }

  lemma SliceOfSlice(text: Text, a: nat, b: nat, i: nat, j: nat)
    requires a <= i <= j <= b <= |text|
    ensures text[a..b][i - a..j - a] == text[i..j]
  {
    var inner, outer := text[a..b][i - a..j - a], text[i..j];
    assert forall k :: 0 <= k < j - i ==> inner[k] == outer[k];
  }
}
