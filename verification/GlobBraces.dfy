/**
 Brace alternation. A pattern is expanded at its leftmost brace, alternative by alternative, until no brace that
 closes is left; the result is compared with the meaning of the nested alternation tree the pattern denotes.
 */
module GlobBraces {
  import opened Common

  // ---------------------------------------------------------------------------------------------------------
  // The expansion.

  function Opens(s: string): nat {
    if s == "" then 0 else (if s[0] == '{' then 1 else 0) + Opens(s[1..])
  }

  lemma OpensAppend(a: string, b: string)
    ensures Opens(a + b) == Opens(a) + Opens(b)
  {
    if a == "" {
      assert a + b == b;
    } else {
      assert (a + b)[1..] == a[1..] + b;
      OpensAppend(a[1..], b);
    }
  }

  /** Where the brace that is `depth` levels up closes, looking from `i` on. */
  function CloseOf(p: string, i: nat, depth: nat): (r: Option<nat>)
    requires i <= |p| && depth >= 1
    ensures r.Some? ==> i <= r.value < |p| && p[r.value] == '}'
    decreases |p| - i
  {
    if i == |p| then None
    else if p[i] == '{' then CloseOf(p, i + 1, depth + 1)
    else if p[i] == '}' then if depth == 1 then Some(i) else CloseOf(p, i + 1, depth - 1)
    else CloseOf(p, i + 1, depth)
  }

  /** How a character moves the depth. */
  function Step(c: char): int {
    if c == '{' then 1 else if c == '}' then -1 else 0
  }

  /** The pieces between the commas outside any inner brace. */
  function Alternatives(body: string, depth: int): (r: seq<string>)
    ensures |r| >= 1
  {
    if body == "" then [""]
    else
      var c := body[0];
      var rest := Alternatives(body[1..], depth + Step(c));
      if c == ',' && depth == 0 then [""] + rest else [[c] + rest[0]] + rest[1..]
  }

  /** No alternative opens more braces than the body it is cut from. */
  lemma {:induction false} AlternativesOpens(body: string, depth: int)
    ensures forall a :: a in Alternatives(body, depth) ==> Opens(a) <= Opens(body)
  {
    if body != "" {
      var c := body[0];
      var rest := Alternatives(body[1..], depth + Step(c));
      AlternativesOpens(body[1..], depth + Step(c));
      assert rest[0] in rest && forall a :: a in rest[1..] ==> a in rest;
      assert ([c] + rest[0])[1..] == rest[0];
    }
  }

  lemma ExpansionShrinks(p: string, open: nat, close: nat, a: string)
    requires open < close < |p| && p[open] == '{'
    requires Opens(a) <= Opens(p[open + 1..close])
    ensures Opens(p[..open] + a + p[close + 1..]) < Opens(p)
  {
    var head, body, tail := p[..open], p[open + 1..close], p[close + 1..];
    assert p == head + (['{'] + body) + ([p[close]] + tail);
    assert (['{'] + body)[1..] == body && ([p[close]] + tail)[1..] == tail;
    OpensAppend(head + (['{'] + body), [p[close]] + tail);
    OpensAppend(head, ['{'] + body);
    OpensAppend(head + a, tail);
    OpensAppend(head, a);
  }

  /** `expandBraces`. */
  function ExpandBraces(p: string): seq<string>
    decreases Opens(p), 1, 0
  {
    match IndexOf(p, '{')
    case None => [p]
    case Some(open) =>
      match CloseOf(p, open + 1, 1)
      case None => [p]
      case Some(close) =>
        var alternatives := Alternatives(p[open + 1..close], 0);
        AlternativesOpens(p[open + 1..close], 0);
        ExpandEach(p, open, close, alternatives)
  }

  /** `flatMap` of the expansion over the alternatives, each put between head and tail. */
  function ExpandEach(p: string, open: nat, close: nat, alternatives: seq<string>): seq<string>
    requires open < close < |p| && p[open] == '{'
    requires forall a :: a in alternatives ==> Opens(a) <= Opens(p[open + 1..close])
    decreases Opens(p), 0, |alternatives|
  {
    if alternatives == [] then []
    else
      ExpansionShrinks(p, open, close, alternatives[0]);
      ExpandBraces(p[..open] + alternatives[0] + p[close + 1..]) + ExpandEach(p, open, close, alternatives[1..])
  }

  // ---------------------------------------------------------------------------------------------------------
  // The loops that compute it.

  method FindClose(p: string, open: nat) returns (close: Option<nat>)
    requires open < |p| && p[open] == '{'
    ensures close == CloseOf(p, open + 1, 1)
  {
    var depth := 0;
    var index := open;
    while index < |p|
      invariant open <= index <= |p|
      invariant index == open ==> depth == 0
      invariant index > open ==> depth >= 1 && CloseOf(p, open + 1, 1) == CloseOf(p, index, depth)
    {
      var c := p[index];
      if c == '{' {
        depth := depth + 1;
      } else if c == '}' {
        depth := depth - 1;
        if depth == 0 {
          return Some(index);
        }
      }
      index := index + 1;
    }
    return None;
  }

  /** `first` put in front of the first piece. */
  function Onto(first: string, pieces: seq<string>): seq<string>
    requires |pieces| >= 1
  {
    [first + pieces[0]] + pieces[1..]
  }

  method SplitAlternatives(body: string) returns (out: seq<string>)
    ensures out == Alternatives(body, 0)
  {
    out := [];
    var depth := 0;
    var current := "";
    assert body[0..] == body;
    OntoNothing(Alternatives(body, 0));
    hide Alternatives, Onto;
    for i := 0 to |body|
      invariant out + Onto(current, Alternatives(body[i..], depth)) == Alternatives(body, 0)
    {
      var c := body[i];
      SplitStep(body, i, depth, out, current);
      if c == '{' { depth := depth + 1; }
      if c == '}' { depth := depth - 1; }
      if c == ',' && depth == 0 {
        out := out + [current];
        current := "";
      } else {
        current := current + [c];
      }
    }
    OntoEnd(body[|body|..], depth, current);
    out := out + [current];
  }

  lemma OntoEnd(body: string, depth: int, current: string)
    requires body == ""
    ensures Onto(current, Alternatives(body, depth)) == [current]
  {
    assert current + "" == current;
  }

  /** One turn of the splitting loop. */
  lemma SplitStep(body: string, i: nat, depth: int, out: seq<string>, current: string)
    requires i < |body|
    ensures
      var d := depth + Step(body[i]);
      var rest := Alternatives(body[i + 1..], d);
      out + Onto(current, Alternatives(body[i..], depth))
      == if body[i] == ',' && d == 0 then out + [current] + Onto("", rest) else out + Onto(current + [body[i]], rest)
  {
    OntoStep(body[i..], depth, current);
    hide *;
    assert body[i..][1..] == body[i + 1..] && body[i..][0] == body[i];
    var d := depth + Step(body[i]);
    if body[i] == ',' && d == 0 {
      var rest := Onto("", Alternatives(body[i + 1..], d));
      assert Onto(current, Alternatives(body[i..], depth)) == [current] + rest;
      PieceJoins(out, current, rest);
    }
  }

  lemma PieceJoins(out: seq<string>, piece: string, rest: seq<string>)
    ensures out + [piece] + rest == out + ([piece] + rest)
  {
  }

  /** One character of the body: a comma at depth 0 closes the current piece, any other extends it. */
  lemma OntoStep(body: string, depth: int, current: string)
    requires body != ""
    ensures
      var c := body[0];
      var d := depth + Step(c);
      var rest := Alternatives(body[1..], d);
      Onto(current, Alternatives(body, depth))
      == if c == ',' && d == 0 then [current] + Onto("", rest) else Onto(current + [c], rest)
  {
    var c := body[0];
    var rest := Alternatives(body[1..], depth + Step(c));
    assert current + ([c] + rest[0]) == current + [c] + rest[0];
    assert current + "" == current;
    OntoNothing(rest);
  }

  lemma OntoNothing(pieces: seq<string>)
    requires |pieces| >= 1
    ensures Onto("", pieces) == pieces
  {
    assert "" + pieces[0] == pieces[0];
  }

  lemma EachStep(p: string, open: nat, close: nat, alternatives: seq<string>, i: nat)
    requires open < close < |p| && p[open] == '{' && i < |alternatives|
    requires forall a :: a in alternatives ==> Opens(a) <= Opens(p[open + 1..close])
    ensures var one := p[..open] + alternatives[i] + p[close + 1..];
      && Opens(one) < Opens(p)
      && ExpandEach(p, open, close, alternatives[i..])
         == ExpandBraces(one) + ExpandEach(p, open, close, alternatives[i + 1..])
  {
    hide Opens;
    ExpansionShrinks(p, open, close, alternatives[i]);
    assert alternatives[i..][1..] == alternatives[i + 1..];
  }

  method ExpandBracesByLoop(p: string) returns (out: seq<string>)
    ensures out == ExpandBraces(p)
    decreases Opens(p)
  {
    hide *;
    NoGroup(p);
    var open := IndexOf(p, '{');
    if open.None? {
      return [p];
    }
    var close := FindClose(p, open.value);
    if close.None? {
      return [p];
    }
    var alternatives := SplitAlternatives(p[open.value + 1..close.value]);
    ExpandUnfold(p, open.value, close.value);
    out := [];
    for i := 0 to |alternatives|
      invariant out + ExpandEach(p, open.value, close.value, alternatives[i..]) == ExpandBraces(p)
    {
      EachStep(p, open.value, close.value, alternatives, i);
      var more := ExpandBracesByLoop(p[..open.value] + alternatives[i] + p[close.value + 1..]);
      out := out + more;
    }
    NoAlternatives(p, open.value, close.value);
  }

  lemma ExpandUnfold(p: string, open: nat, close: nat)
    requires IndexOf(p, '{') == Some(open) && CloseOf(p, open + 1, 1) == Some(close)
    ensures
      var pieces := Alternatives(p[open + 1..close], 0);
      && (forall a :: a in pieces ==> Opens(a) <= Opens(p[open + 1..close]))
      && ExpandBraces(p) == ExpandEach(p, open, close, pieces)
  {
    AlternativesOpens(p[open + 1..close], 0);
  }

  lemma NoGroup(p: string)
    ensures IndexOf(p, '{').None? ==> ExpandBraces(p) == [p]
    ensures IndexOf(p, '{').Some? && CloseOf(p, IndexOf(p, '{').value + 1, 1).None? ==> ExpandBraces(p) == [p]
  {
  }

  lemma NoAlternatives(p: string, open: nat, close: nat)
    requires open < close < |p| && p[open] == '{'
    ensures ExpandEach(p, open, close, []) == []
  {
  }

  // ---------------------------------------------------------------------------------------------------------
  // Balance.

  /** The nesting depth after reading `s` at depth `d`; `None` once a brace closes that was never opened. */
  function Scan(s: string, d: nat): Option<nat> {
    if s == "" then Some(d)
    else if s[0] == '{' then Scan(s[1..], d + 1)
    else if s[0] == '}' then if d == 0 then None else Scan(s[1..], d - 1)
    else Scan(s[1..], d)
  }

  predicate Balanced(s: string) {
    Scan(s, 0) == Some(0)
  }

  predicate Braceless(s: string) {
    '{' !in s && '}' !in s
  }

  lemma {:induction false} ScanAppend(a: string, b: string, d: nat)
    ensures Scan(a + b, d) == match Scan(a, d) case None => None case Some(e) => Scan(b, e)
  {
    if a == "" {
      assert a + b == b;
    } else {
      assert (a + b)[1..] == a[1..] + b;
      if a[0] == '{' {
        ScanAppend(a[1..], b, d + 1);
      } else if a[0] == '}' {
        if d > 0 { ScanAppend(a[1..], b, d - 1); }
      } else {
        ScanAppend(a[1..], b, d);
      }
    }
  }

  lemma {:induction false} ScanShift(s: string, d: nat, k: nat)
    requires Scan(s, d).Some?
    ensures Scan(s, d + k) == Some(Scan(s, d).value + k)
  {
    if s != "" {
      ScanShift(s[1..], if s[0] == '{' then d + 1 else if s[0] == '}' then d - 1 else d, k);
    }
  }

  /** What lies before the closing brace comes back to the depth it started from without going below it. */
  lemma {:induction false} CloseScan(p: string, i: nat, depth: nat)
    requires i <= |p| && depth >= 1
    requires CloseOf(p, i, depth).Some?
    ensures Scan(p[i..CloseOf(p, i, depth).value], depth - 1) == Some(0)
    decreases |p| - i
  {
    var close := CloseOf(p, i, depth).value;
    if i < close {
      assert p[i..close][1..] == p[i + 1..close];
      CloseScan(p, i + 1, if p[i] == '{' then depth + 1 else if p[i] == '}' then depth - 1 else depth);
    }
  }

  lemma {:induction false} NoCloseScan(p: string, i: nat, depth: nat)
    requires i <= |p| && depth >= 1
    requires CloseOf(p, i, depth).None?
    ensures Scan(p[i..], depth) != Some(0)
    decreases |p| - i
  {
    if i < |p| {
      assert p[i..][1..] == p[i + 1..];
      NoCloseScan(p, i + 1, if p[i] == '{' then depth + 1 else if p[i] == '}' then depth - 1 else depth);
    }
  }

  /** The pieces of a balanced body are balanced themselves. */
  lemma {:induction false} AlternativesBalanced(body: string, depth: nat)
    requires Scan(body, depth) == Some(0)
    ensures
      var pieces := Alternatives(body, depth);
      Scan(pieces[0], depth) == Some(0) && forall a :: a in pieces[1..] ==> Balanced(a)
  {
    if body != "" {
      var c := body[0];
      var d := if c == '{' then depth + 1 else if c == '}' then depth - 1 else depth;
      AlternativesBalanced(body[1..], d);
      var rest := Alternatives(body[1..], d);
      assert ([c] + rest[0])[1..] == rest[0];
      assert forall a :: a in rest ==> a == rest[0] || a in rest[1..];
    }
  }

  lemma NoOpenScan(s: string)
    requires '{' !in s
    ensures Scan(s, 0) == if '}' in s then None else Some(0)
  {
    if s != "" {
      assert s == [s[0]] + s[1..];
    }
  }

  /** Replacing the leftmost group by one of its alternatives does not change the balance of the pattern. */
  lemma AlternativeKeepsBalance(p: string, open: nat, close: nat, a: string)
    requires IndexOf(p, '{') == Some(open) && CloseOf(p, open + 1, 1) == Some(close)
    requires a in Alternatives(p[open + 1..close], 0)
    ensures Balanced(p[..open] + a + p[close + 1..]) <==> Balanced(p)
  {
    var body := p[open + 1..close];
    hide Scan, CloseOf, Alternatives;
    LeftmostGroup(p, open, close);
    AlternativesBalanced(body, 0);
    var pieces := Alternatives(body, 0);
    assert pieces == [pieces[0]] + pieces[1..];
    MiddleBalance(p[..open], a, Braced(body), p[close + 1..]);
  }

  lemma LeftmostGroup(p: string, open: nat, close: nat)
    requires IndexOf(p, '{') == Some(open) && CloseOf(p, open + 1, 1) == Some(close)
    ensures Balanced(p[open + 1..close]) && Balanced(Braced(p[open + 1..close]))
    ensures p == p[..open] + Braced(p[open + 1..close]) + p[close + 1..]
  {
    hide Scan, CloseOf, IndexOf;
    CloseScan(p, open + 1, 1);
    GroupScan(p[open + 1..close]);
    GroupInPlace(p, open, close);
  }

  lemma GroupInPlace(p: string, open: nat, close: nat)
    requires open < close < |p| && p[open] == '{' && p[close] == '}'
    ensures p == p[..open] + Braced(p[open + 1..close]) + p[close + 1..]
  {
  }

  lemma MiddleBalance(head: string, middle: string, other: string, tail: string)
    requires '{' !in head && Balanced(middle) && Balanced(other)
    ensures Balanced(head + middle + tail) <==> Balanced(head + other + tail)
  {
    hide Scan;
    NoOpenScan(head);
    ScanAppend(head + middle, tail, 0);
    ScanAppend(head, middle, 0);
    ScanAppend(head + other, tail, 0);
    ScanAppend(head, other, 0);
  }

  function Braced(body: string): string {
    ['{'] + (body + ['}'])
  }

  lemma GroupScan(body: string)
    requires Balanced(body)
    ensures Balanced(Braced(body))
  {
    ScanShift(body, 0, 1);
    ScanAppend(body, ['}'], 1);
    assert Braced(body)[1..] == body + ['}'];
  }

  lemma OpenScan(s: string)
    ensures Scan(['{'] + s, 0) == Scan(s, 1)
  {
    assert (['{'] + s)[1..] == s;
  }

  lemma UnclosedUnbalanced(p: string, open: nat)
    requires open < |p| && p[open] == '{' && '{' !in p[..open] && CloseOf(p, open + 1, 1).None?
    ensures !Balanced(p)
  {
    hide CloseOf, Scan;
    NoCloseScan(p, open + 1, 1);
    var tail := ['{'] + p[open + 1..];
    assert p == p[..open] + tail;
    OpenScan(p[open + 1..]);
    ScanAppend(p[..open], tail, 0);
    NoOpenScan(p[..open]);
  }

  lemma {:induction false} ExpansionKeepsBalance(p: string)
    ensures forall e :: e in ExpandBraces(p) ==> (Balanced(e) <==> Balanced(p)) && (Balanced(e) ==> Braceless(e))
    ensures ExpandBraces(p) != []
    decreases Opens(p), 1, 0
  {
    var open := IndexOf(p, '{');
    if open.None? {
      NoOpenScan(p);
    } else if CloseOf(p, open.value + 1, 1).None? {
      UnclosedUnbalanced(p, open.value);
    } else {
      var close := CloseOf(p, open.value + 1, 1).value;
      AlternativesOpens(p[open.value + 1..close], 0);
      EachKeepsBalance(p, open.value, close, Alternatives(p[open.value + 1..close], 0));
    }
  }

  lemma {:induction false} EachKeepsBalance(p: string, open: nat, close: nat, alternatives: seq<string>)
    requires IndexOf(p, '{') == Some(open) && CloseOf(p, open + 1, 1) == Some(close)
    requires forall a :: a in alternatives ==>
      a in Alternatives(p[open + 1..close], 0) && Opens(a) <= Opens(p[open + 1..close])
    ensures forall e :: e in ExpandEach(p, open, close, alternatives) ==>
      (Balanced(e) <==> Balanced(p)) && (Balanced(e) ==> Braceless(e))
    ensures alternatives != [] ==> ExpandEach(p, open, close, alternatives) != []
    decreases Opens(p), 0, |alternatives|
  {
    if alternatives == [] {
      return;
    }
    EachInTurn(p, open, close, alternatives);
    hide *;
    var q, others := p[..open] + alternatives[0] + p[close + 1..], alternatives[1..];
    ExpansionShrinks(p, open, close, alternatives[0]);
    AlternativeKeepsBalance(p, open, close, alternatives[0]);
    ExpansionKeepsBalance(q);
    assert forall a :: a in others ==> a in alternatives;
    EachKeepsBalance(p, open, close, others);
  }

  lemma EachInTurn(p: string, open: nat, close: nat, alternatives: seq<string>)
    requires open < close < |p| && p[open] == '{' && alternatives != []
    requires forall a :: a in alternatives ==> Opens(a) <= Opens(p[open + 1..close])
    ensures
      ExpandEach(p, open, close, alternatives)
      == ExpandBraces(p[..open] + alternatives[0] + p[close + 1..]) + ExpandEach(p, open, close, alternatives[1..])
  {
  }

  /** The expansion leaves no brace behind exactly when the pattern's braces balance. */
  lemma BracelessIffBalanced(p: string)
    ensures Balanced(p) <==> forall e :: e in ExpandBraces(p) ==> Braceless(e)
  {
    ExpansionKeepsBalance(p);
    assert ExpandBraces(p)[0] in ExpandBraces(p);
    if Braceless(ExpandBraces(p)[0]) {
      NoOpenScan(ExpandBraces(p)[0]);
    }
  }

  // ---------------------------------------------------------------------------------------------------------
  // The alternation tree.

  /** A pattern as a tree: characters and groups in sequence. */
  datatype Tree = Nothing | Char(c: char, rest: Tree) | Group(alternatives: Choice, rest: Tree)

  /** The alternatives of a group. */
  datatype Choice = Last(t: Tree) | Or(t: Tree, others: Choice)

  /** Characters are no braces, and inside a group no commas. */
  predicate WellFormed(t: Tree, inGroup: bool) {
    match t
    case Nothing => true
    case Char(c, rest) => c != '{' && c != '}' && (inGroup ==> c != ',') && WellFormed(rest, inGroup)
    case Group(alternatives, rest) => WellFormedChoice(alternatives) && WellFormed(rest, inGroup)
  }

  predicate WellFormedChoice(a: Choice) {
    WellFormed(a.t, true) && (a.Or? ==> WellFormedChoice(a.others))
  }

  function Print(t: Tree): string {
    match t
    case Nothing => ""
    case Char(c, rest) => [c] + Print(rest)
    case Group(alternatives, rest) => Braced(PrintChoice(alternatives)) + Print(rest)
  }

  function PrintChoice(a: Choice): string {
    match a
    case Last(t) => Print(t)
    case Or(t, others) => Print(t) + ([','] + PrintChoice(others))
  }

  function Product(a: seq<string>, b: seq<string>): seq<string> {
    if a == [] then [] else OntoAll(a[0], b) + Product(a[1..], b)
  }

  function OntoAll(x: string, b: seq<string>): (r: seq<string>)
    ensures |r| == |b| && forall i :: 0 <= i < |b| ==> r[i] == x + b[i]
  {
    seq(|b|, i requires 0 <= i < |b| => x + b[i])
  }

  /** The strings of a tree, in order: concatenation in sequence, union over a group's alternatives. */
  function Strings(t: Tree): seq<string> {
    match t
    case Nothing => [""]
    case Char(c, rest) => OntoAll([c], Strings(rest))
    case Group(alternatives, rest) => Product(StringsOfChoice(alternatives), Strings(rest))
  }

  function StringsOfChoice(a: Choice): seq<string> {
    match a
    case Last(t) => Strings(t)
    case Or(t, others) => Strings(t) + StringsOfChoice(others)
  }

  // Trees in sequence.

  function Append(a: Tree, b: Tree): Tree {
    match a
    case Nothing => b
    case Char(c, rest) => Char(c, Append(rest, b))
    case Group(alternatives, rest) => Group(alternatives, Append(rest, b))
  }

  lemma OntoAllTwice(x: string, y: string, b: seq<string>)
    ensures OntoAll(x, OntoAll(y, b)) == OntoAll(x + y, b)
  {
    assert forall i :: 0 <= i < |b| ==> x + (y + b[i]) == x + y + b[i];
  }

  lemma OntoAllAppend(x: string, a: seq<string>, b: seq<string>)
    ensures OntoAll(x, a + b) == OntoAll(x, a) + OntoAll(x, b)
  {
  }

  lemma ProductAppend(a: seq<string>, a': seq<string>, b: seq<string>)
    ensures Product(a + a', b) == Product(a, b) + Product(a', b)
  {
    if a == [] {
      assert a + a' == a';
    } else {
      assert (a + a')[1..] == a[1..] + a';
      ProductAppend(a[1..], a', b);
    }
  }

  lemma ProductOnto(x: string, a: seq<string>, b: seq<string>)
    ensures Product(OntoAll(x, a), b) == OntoAll(x, Product(a, b))
  {
    if a != [] {
      assert OntoAll(x, a)[1..] == OntoAll(x, a[1..]);
      ProductOnto(x, a[1..], b);
      OntoAllTwice(x, a[0], b);
      OntoAllAppend(x, OntoAll(a[0], b), Product(a[1..], b));
    }
  }

  lemma ProductAssociative(a: seq<string>, b: seq<string>, c: seq<string>)
    ensures Product(Product(a, b), c) == Product(a, Product(b, c))
  {
    if a != [] {
      ProductAppend(OntoAll(a[0], b), Product(a[1..], b), c);
      ProductOnto(a[0], b, c);
      ProductAssociative(a[1..], b, c);
    }
  }

  /** Appending behind the tree `a` multiplies the strings and joins the texts. */
  predicate AppendsWell(a: Tree, b: Tree) {
    && Strings(Append(a, b)) == Product(Strings(a), Strings(b))
    && Print(Append(a, b)) == Print(a) + Print(b)
  }

  lemma AppendNothing(b: Tree)
    ensures AppendsWell(Nothing, b)
  {
    assert [""][1..] == [] && Strings(Nothing) == [""];
    assert OntoAll("", Strings(b)) == Strings(b) by {
      assert forall i :: 0 <= i < |Strings(b)| ==> "" + Strings(b)[i] == Strings(b)[i];
    }
    assert Product([""], Strings(b)) == OntoAll("", Strings(b)) + [];
  }

  lemma AppendChar(c: char, rest: Tree, b: Tree)
    requires AppendsWell(rest, b)
    ensures AppendsWell(Char(c, rest), b)
  {
    ProductOnto([c], Strings(rest), Strings(b));
    CharParts(c, rest);
    CharParts(c, Append(rest, b));
    AppendParts(Char(c, rest), b);
    hide Product, OntoAll, Strings, Print, Append;
    assert [c] + (Print(rest) + Print(b)) == [c] + Print(rest) + Print(b);
  }

  lemma CharParts(c: char, rest: Tree)
    ensures Strings(Char(c, rest)) == OntoAll([c], Strings(rest)) && Print(Char(c, rest)) == [c] + Print(rest)
  {
  }

  lemma GroupParts(alternatives: Choice, rest: Tree)
    ensures Strings(Group(alternatives, rest)) == Product(StringsOfChoice(alternatives), Strings(rest))
    ensures Print(Group(alternatives, rest)) == Braced(PrintChoice(alternatives)) + Print(rest)
  {
  }

  lemma AppendParts(a: Tree, b: Tree)
    ensures a.Char? ==> Append(a, b) == Char(a.c, Append(a.rest, b))
    ensures a.Group? ==> Append(a, b) == Group(a.alternatives, Append(a.rest, b))
  {
  }

  lemma AppendGroup(alternatives: Choice, rest: Tree, b: Tree)
    requires AppendsWell(rest, b)
    ensures AppendsWell(Group(alternatives, rest), b)
  {
    ProductAssociative(StringsOfChoice(alternatives), Strings(rest), Strings(b));
    GroupParts(alternatives, rest);
    GroupParts(alternatives, Append(rest, b));
    AppendParts(Group(alternatives, rest), b);
    hide Product, StringsOfChoice, PrintChoice, Strings, Print, Append, Braced;
    var group := Braced(PrintChoice(alternatives));
    assert group + (Print(rest) + Print(b)) == group + Print(rest) + Print(b);
  }

  lemma {:induction false} AppendWorks(a: Tree, b: Tree)
    ensures AppendsWell(a, b)
    decreases a
  {
    hide *;
    match a
    case Nothing => AppendNothing(b);
    case Char(c, rest) =>
      AppendWorks(rest, b);
      AppendChar(c, rest, b);
    case Group(alternatives, rest) =>
      AppendWorks(rest, b);
      AppendGroup(alternatives, rest, b);
  }

  lemma StringsAppend(a: Tree, b: Tree)
    ensures Strings(Append(a, b)) == Product(Strings(a), Strings(b))
    ensures Print(Append(a, b)) == Print(a) + Print(b)
  {
    AppendWorks(a, b);
    hide Strings, Print, Append, Product;
  }

  lemma {:induction false} AppendWellFormed(a: Tree, b: Tree, inGroup: bool)
    requires WellFormed(a, inGroup) && WellFormed(b, inGroup)
    ensures WellFormed(Append(a, b), inGroup)
    decreases a
  {
    match a
    case Nothing =>
    case Char(c, rest) => AppendWellFormed(rest, b, inGroup);
    case Group(alternatives, rest) => AppendWellFormed(rest, b, inGroup);
  }

  lemma {:induction false} LeaveGroup(t: Tree)
    requires WellFormed(t, true)
    ensures WellFormed(t, false)
    decreases t
  {
    match t
    case Nothing =>
    case Char(c, rest) => LeaveGroup(rest);
    case Group(alternatives, rest) => LeaveGroup(rest);
  }

  // ---------------------------------------------------------------------------------------------------------
  // Expansion computes the strings of the tree.

  function Letters(x: string): Tree {
    if x == "" then Nothing else Char(x[0], Letters(x[1..]))
  }

  lemma {:induction false} LettersMeaning(x: string)
    ensures Print(Letters(x)) == x && Strings(Letters(x)) == [x]
    ensures Braceless(x) ==> WellFormed(Letters(x), false)
  {
    if x != "" {
      assert x == [x[0]] + x[1..];
      LettersMeaning(x[1..]);
    }
  }

  /** The letters before the first group, the group, and what follows it. */
  lemma {:induction false} FirstGroup(t: Tree) returns (x: string, g: Option<(Choice, Tree)>)
    requires WellFormed(t, false)
    ensures Braceless(x)
    ensures g.None? ==> t == Letters(x)
    ensures g.Some? ==>
      && t == Append(Letters(x), Group(g.value.0, g.value.1))
      && WellFormedChoice(g.value.0) && WellFormed(g.value.1, false)
    decreases t
  {
    match t
    case Nothing => x, g := "", None;
    case Char(c, rest) =>
      var x', g' := FirstGroup(rest);
      x, g := [c] + x', g';
      assert x[1..] == x';
    case Group(alternatives, rest) => x, g := "", Some((alternatives, rest));
  }

  lemma {:induction false} TreeScan(t: Tree, inGroup: bool, d: nat)
    requires WellFormed(t, inGroup)
    ensures Scan(Print(t), d) == Some(d)
    decreases t
  {
    match t
    case Nothing =>
    case Char(c, rest) =>
      assert Print(t)[1..] == Print(rest);
      TreeScan(rest, inGroup, d);
    case Group(alternatives, rest) =>
      var body := PrintChoice(alternatives);
      ChoiceScan(alternatives, 0);
      GroupScan(body);
      ScanShift(Braced(body), 0, d);
      ScanAppend(Braced(body), Print(rest), d);
      TreeScan(rest, inGroup, d);
  }

  lemma {:induction false} ChoiceScan(a: Choice, d: nat)
    requires WellFormedChoice(a)
    ensures Scan(PrintChoice(a), d) == Some(d)
    decreases a
  {
    TreeScan(a.t, true, d);
    if a.Or? {
      ChoiceScan(a.others, d);
      ScanAppend(Print(a.t), [','] + PrintChoice(a.others), d);
      assert ([','] + PrintChoice(a.others))[1..] == PrintChoice(a.others);
    }
  }

  /** The brace closes right behind text that is balanced. */
  lemma {:induction false} CloseBehind(p: string, i: nat, j: nat, depth: nat)
    requires i <= j < |p| && p[j] == '}' && depth >= 1
    requires Scan(p[i..j], depth - 1) == Some(0)
    ensures CloseOf(p, i, depth) == Some(j)
    decreases j - i
  {
    if i < j {
      assert p[i..j][1..] == p[i + 1..j];
      CloseBehind(p, i + 1, j, if p[i] == '{' then depth + 1 else if p[i] == '}' then depth - 1 else depth);
    }
  }

  lemma InnerChar(c: char, w: string, d: int)
    requires d >= 1 || c != ','
    ensures Alternatives([c] + w, d) == Onto([c], Alternatives(w, d + Step(c)))
  {
    assert ([c] + w)[1..] == w;
  }

  lemma ScanChar(w: string, k: nat)
    requires w != "" && Scan(w, k).Some?
    ensures k + Step(w[0]) >= 0 && Scan(w[1..], k + Step(w[0])) == Scan(w, k)
  {
  }

  /** Text read below the top level cuts nothing. */
  lemma {:induction false} AlternativesInner(w: string, tail: string, k: nat, d: int)
    requires Scan(w, k).Some? && d >= k + 1
    ensures Alternatives(w + tail, d) == Onto(w, Alternatives(tail, d - k + Scan(w, k).value))
    decreases w
  {
    if w == "" {
      assert w + tail == tail;
      OntoNothing(Alternatives(tail, d));
    } else {
      ScanChar(w, k);
      var rests := Alternatives(tail, d - k + Scan(w, k).value);
      hide *;
      var c, v := w[0], w[1..];
      assert w == [c] + v && w + tail == [c] + (v + tail);
      InnerChar(c, v + tail, d);
      AlternativesInner(v, tail, k + Step(c), d + Step(c));
      OntoTwice([c], v, rests);
    }
  }

  /** A group is never cut. */
  lemma AlternativesGroup(body: string, tail: string)
    requires Balanced(body)
    ensures Alternatives(Braced(body) + tail, 0) == Onto(Braced(body), Alternatives(tail, 0))
  {
    var rests := Alternatives(tail, 0);
    var behind := ['}'] + tail;
    InnerChar('}', tail, 1);
    AlternativesInner(body, behind, 0, 1);
    InnerChar('{', body + behind, 0);
    hide *;
    OntoTwice(body, ['}'], rests);
    OntoTwice(['{'], body + ['}'], rests);
    BracedThen(body, tail);
  }

  lemma BracedThen(body: string, tail: string)
    ensures Braced(body) + tail == ['{'] + (body + (['}'] + tail)) && Braced(body) == ['{'] + (body + ['}'])
  {
  }

  lemma OntoTwice(a: string, b: string, pieces: seq<string>)
    requires |pieces| >= 1
    ensures Onto(a, Onto(b, pieces)) == Onto(a + b, pieces)
  {
    assert a + (b + pieces[0]) == a + b + pieces[0];
  }

  /** Nor is a text cut at a character that is neither a brace nor a comma. */
  lemma AlternativesChar(c: char, w: string)
    requires c != '{' && c != '}' && c != ','
    ensures Alternatives([c] + w, 0) == Onto([c], Alternatives(w, 0))
  {
    assert ([c] + w)[1..] == w;
  }

  /** A tree inside a group, taken apart. */
  lemma TreeParts(t: Tree)
    requires WellFormed(t, true)
    ensures
      match t
      case Nothing => Print(t) == ""
      case Char(c, rest) =>
        Print(t) == [c] + Print(rest) && c != '{' && c != '}' && c != ',' && WellFormed(rest, true)
      case Group(alternatives, rest) =>
        && Print(t) == Braced(PrintChoice(alternatives)) + Print(rest)
        && WellFormedChoice(alternatives) && WellFormed(rest, true) && Balanced(PrintChoice(alternatives))
  {
    if t.Group? {
      ChoiceScan(t.alternatives, 0);
    }
    hide PrintChoice, Scan;
  }

  /** Neither is an alternative's own text. */
  lemma {:induction false} AlternativesTree(t: Tree, tail: string)
    requires WellFormed(t, true)
    ensures Alternatives(Print(t) + tail, 0) == Onto(Print(t), Alternatives(tail, 0))
    decreases t
  {
    hide *;
    TreeParts(t);
    var rests := Alternatives(tail, 0);
    match t
    case Nothing =>
      assert "" + tail == tail;
      OntoNothing(rests);
    case Char(c, rest) =>
      assert Print(t) + tail == [c] + (Print(rest) + tail);
      AlternativesChar(c, Print(rest) + tail);
      AlternativesTree(rest, tail);
      OntoTwice([c], Print(rest), rests);
    case Group(alternatives, rest) =>
      var group := Braced(PrintChoice(alternatives));
      assert Print(t) + tail == group + (Print(rest) + tail);
      AlternativesGroup(PrintChoice(alternatives), Print(rest) + tail);
      AlternativesTree(rest, tail);
      OntoTwice(group, Print(rest), rests);
  }

  function PrintEach(a: Choice): (r: seq<string>)
    ensures |r| >= 1
  {
    match a
    case Last(t) => [Print(t)]
    case Or(t, others) => [Print(t)] + PrintEach(others)
  }

  lemma {:induction false} AlternativesChoice(a: Choice)
    requires WellFormedChoice(a)
    ensures Alternatives(PrintChoice(a), 0) == PrintEach(a)
    decreases a
  {
    if a.Or? {
      AlternativesChoice(a.others);
      var tail := [','] + PrintChoice(a.others);
      assert tail[1..] == PrintChoice(a.others);
      AlternativesTree(a.t, tail);
      assert Print(a.t) + "" == Print(a.t);
    } else {
      AlternativesTree(a.t, "");
      assert Print(a.t) + "" == Print(a.t);
    }
  }

  /** What the expansion finds: the first group, its body, and what is around it. */
  lemma GroupInText(p: string, x: string, body: string, tail: string) returns (close: nat)
    requires Braceless(x) && Balanced(body) && p == x + (Braced(body) + tail)
    ensures IndexOf(p, '{') == Some(|x|) && CloseOf(p, |x| + 1, 1) == Some(close)
    ensures |x| < close < |p| && p[|x| + 1..close] == body
    ensures p[..|x|] == x && p[close + 1..] == tail
  {
    close := |x| + 1 + |body|;
    BracedThen(body, tail);
    PartsAround(p, x, body, tail, close);
    hide CloseOf;
    IndexOfFirst(p, '{', |x|);
    CloseBehind(p, |x| + 1, close, 1);
  }

  lemma PartsAround(p: string, x: string, body: string, tail: string, close: nat)
    requires p == x + (['{'] + (body + (['}'] + tail))) && close == |x| + 1 + |body|
    ensures |x| < close < |p| && p[..|x|] == x && p[|x|] == '{' && p[|x| + 1..close] == body
    ensures p[close] == '}' && p[close + 1..] == tail
  {
    var inner := body + (['}'] + tail);
    assert p[|x| + 1..] == inner;
    assert p[|x| + 1..close] == inner[..|body|] == body;
    assert p[close..] == inner[|body|..] == ['}'] + tail;
  }

  lemma LettersExpand(x: string)
    requires Braceless(x)
    ensures ExpandBraces(x) == [x]
  {
  }

  lemma GroupBehindLetters(x: string, a: Choice, rest: Tree)
    ensures var t := Append(Letters(x), Group(a, rest));
      && Print(t) == x + (Braced(PrintChoice(a)) + Print(rest))
      && Strings(t) == OntoAll(x, Product(StringsOfChoice(a), Strings(rest)))
  {
    LettersMeaning(x);
    StringsAppend(Letters(x), Group(a, rest));
    ProductOne(x, Product(StringsOfChoice(a), Strings(rest)));
  }

  /** For a balanced pattern the expansion is exactly the list of strings of its alternation tree. */
  lemma {:induction false} ExpansionOfTree(t: Tree)
    requires WellFormed(t, false)
    ensures ExpandBraces(Print(t)) == Strings(t)
    decreases Opens(Print(t)), 1
  {
    hide Scan, Print, PrintChoice, Strings, StringsOfChoice, Append, Letters, Alternatives, ExpandBraces, CloseOf;
    hide WellFormed, Product, PrintEach, Opens;
    var x, g := FirstGroup(t);
    LettersMeaning(x);
    if g.Some? {
      var (a, rest) := g.value;
      GroupBehindLetters(x, a, rest);
      ChoiceScan(a, 0);
      var close := GroupInText(Print(t), x, PrintChoice(a), Print(rest));
      AlternativesChoice(a);
      ExpandUnfold(Print(t), |x|, close);
      ExpansionOfChoice(Print(t), close, x, a, rest);
    } else {
      LettersExpand(x);
    }
  }

  lemma ProductOne(x: string, b: seq<string>)
    ensures Product([x], b) == OntoAll(x, b)
  {
    assert [x][1..] == [];
  }

  /** One alternative of the first group, between the letters before the group and the rest behind it. */
  lemma OneAlternative(x: string, a: Tree, rest: Tree) returns (t: Tree)
    requires Braceless(x) && WellFormed(a, true) && WellFormed(rest, false)
    ensures WellFormed(t, false) && Print(t) == x + Print(a) + Print(rest)
    ensures Strings(t) == OntoAll(x, Product(Strings(a), Strings(rest)))
  {
    hide Print, Strings, WellFormed, Product, Opens;
    t := Append(Letters(x), Append(a, rest));
    LettersMeaning(x);
    LeaveGroup(a);
    AppendWellFormed(a, rest, false);
    AppendWellFormed(Letters(x), Append(a, rest), false);
    StringsAppend(Letters(x), Append(a, rest));
    StringsAppend(a, rest);
    ProductOne(x, Product(Strings(a), Strings(rest)));
  }

  lemma {:induction false} ExpansionOfChoice(p: string, close: nat, x: string, a: Choice, rest: Tree)
    requires Braceless(x) && WellFormedChoice(a) && WellFormed(rest, false)
    requires |x| < close < |p| && p[|x|] == '{' && p[..|x|] == x && p[close + 1..] == Print(rest)
    requires forall s :: s in PrintEach(a) ==> Opens(s) <= Opens(p[|x| + 1..close])
    ensures ExpandEach(p, |x|, close, PrintEach(a)) == OntoAll(x, Product(StringsOfChoice(a), Strings(rest)))
    decreases Opens(p), 0, a
  {
    var each := PrintEach(a);
    hide Print, Strings, WellFormed, Opens, Product;
    var t := OneAlternative(x, a.t, rest);
    ExpansionShrinks(p, |x|, close, each[0]);
    ExpansionOfTree(t);
    if a.Or? {
      assert each[1..] == PrintEach(a.others);
      ExpansionOfChoice(p, close, x, a.others, rest);
      ProductAppend(Strings(a.t), StringsOfChoice(a.others), Strings(rest));
      OntoAllAppend(x, Product(Strings(a.t), Strings(rest)), Product(StringsOfChoice(a.others), Strings(rest)));
    } else {
      assert each[1..] == [];
    }
  }

  // ---------------------------------------------------------------------------------------------------------
  // Every balanced pattern is the text of a tree.

  function Join(pieces: seq<string>): string
    requires |pieces| >= 1
  {
    if |pieces| == 1 then pieces[0] else pieces[0] + ([','] + Join(pieces[1..]))
  }

  lemma JoinPrepend(c: char, rest: seq<string>)
    requires |rest| >= 1
    ensures Join([[c] + rest[0]] + rest[1..]) == [c] + Join(rest)
  {
    var pieces := [[c] + rest[0]] + rest[1..];
    assert pieces[1..] == rest[1..];
    assert |rest| > 1 ==> [c] + (rest[0] + ([','] + Join(rest[1..]))) == pieces[0] + ([','] + Join(rest[1..]));
  }

  lemma {:induction false} AlternativesJoin(body: string, depth: int)
    ensures Join(Alternatives(body, depth)) == body
  {
    if body != "" {
      var c := body[0];
      var d := depth + Step(c);
      var rest := Alternatives(body[1..], d);
      AlternativesJoin(body[1..], d);
      assert body == [c] + body[1..];
      if c == ',' && depth == 0 {
        assert ([""] + rest)[1..] == rest;
      } else {
        hide Join;
        JoinPrepend(c, rest);
      }
    }
  }

  /** A piece has no comma of its own left at the top level. */
  lemma {:induction false} PiecesUncut(body: string, depth: int)
    ensures
      var pieces := Alternatives(body, depth);
      |Alternatives(pieces[0], depth)| == 1 && forall a :: a in pieces[1..] ==> |Alternatives(a, 0)| == 1
  {
    if body != "" {
      var c := body[0];
      var d := depth + Step(c);
      var rest := Alternatives(body[1..], d);
      PiecesUncut(body[1..], d);
      assert rest == [rest[0]] + rest[1..];
      assert ([c] + rest[0])[1..] == rest[0];
    }
  }

  lemma {:induction false} ParseTree(s: string, inGroup: bool) returns (t: Tree)
    requires Balanced(s) && (inGroup ==> |Alternatives(s, 0)| == 1)
    ensures WellFormed(t, inGroup) && Print(t) == s
    decreases |s|, 1
  {
    if s == "" {
      t := Nothing;
    } else if s[0] == '{' {
      if CloseOf(s, 1, 1).None? { NoCloseScan(s, 1, 1); }
      var close := CloseOf(s, 1, 1).value;
      var body, tail := s[1..close], s[close + 1..];
      CloseScan(s, 1, 1);
      assert s == Braced(body) + tail;
      GroupScan(body);
      ScanAppend(Braced(body), tail, 0);
      AlternativesGroup(body, tail);
      AlternativesBalanced(body, 0);
      PiecesUncut(body, 0);
      AlternativesJoin(body, 0);
      var pieces := Alternatives(body, 0);
      assert pieces == [pieces[0]] + pieces[1..];
      var choice := ParseChoice(pieces, |s|);
      var rest := ParseTree(tail, inGroup);
      t := Group(choice, rest);
    } else {
      var rest := ParseTree(s[1..], inGroup);
      t := Char(s[0], rest);
    }
  }

  lemma {:induction false} ParseChoice(pieces: seq<string>, bound: nat) returns (a: Choice)
    requires |pieces| >= 1 && |Join(pieces)| < bound
    requires forall s :: s in pieces ==> Balanced(s) && |Alternatives(s, 0)| == 1
    ensures WellFormedChoice(a) && PrintChoice(a) == Join(pieces)
    decreases bound, 0, |pieces|
  {
    var t := ParseTree(pieces[0], true);
    if |pieces| == 1 {
      a := Last(t);
    } else {
      var others := ParseChoice(pieces[1..], bound);
      a := Or(t, others);
    }
  }

  /** Balanced patterns are exactly the printed trees, and the expansion lists the tree's strings in order. */
  lemma BalancedPatternExpansion(p: string)
    ensures Balanced(p) <==> exists t :: WellFormed(t, false) && Print(t) == p
    ensures forall t :: WellFormed(t, false) && Print(t) == p ==> ExpandBraces(p) == Strings(t)
  {
    if Balanced(p) {
      var t := ParseTree(p, false);
    }
    forall t | WellFormed(t, false) && Print(t) == p
      ensures Balanced(p) && ExpandBraces(p) == Strings(t)
    {
      TreeScan(t, false, 0);
      ExpansionOfTree(t);
    }
  }
}
