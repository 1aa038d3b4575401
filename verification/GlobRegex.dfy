/**
 The glob compiler: a brace-free pattern becomes the source text of a regular expression. The text is read back
 by a parser for that fragment of regular expression syntax, and its language is compared with a matcher that
 works on path segments.
 */
module GlobRegex {
  import opened Common

  /** One piece of the produced expression. */
  datatype Atom =
    | Lit(c: char)   // the character itself
    | Star           // [^/]*
    | Any            // [^/]
    | Deep           // .*
    | Dirs           // (?:.*/)?

  /** What `.` does not match: the line terminators of ECMAScript. */
  predicate LineEnd(c: char) {
    c == '\n' || c == '\r' || c as int == 0x2028 || c as int == 0x2029
  }

  predicate Plain(s: string) {
    forall i :: 0 <= i < |s| ==> !LineEnd(s[i])
  }

  // ---------------------------------------------------------------------------------------------------------
  // Language of an expression.

  predicate Word(a: Atom, w: string) {
    match a
    case Lit(c) => w == [c]
    case Star => '/' !in w
    case Any => |w| == 1 && w[0] != '/'
    case Deep => Plain(w)
    case Dirs => w == "" || (w[|w| - 1] == '/' && Plain(w))
  }

  /** The anchored expression accepts `s`: some cut of `s` gives every atom a word of its own. */
  predicate Accepts(atoms: seq<Atom>, s: string) {
    if atoms == [] then s == ""
    else exists k :: 0 <= k <= |s| && Word(atoms[0], s[..k]) && Accepts(atoms[1..], s[k..])
  }

  // ---------------------------------------------------------------------------------------------------------
  // The flags. With `u` alone a character matches itself; with `iu` whatever has the same case folding. `fold` is the
  // identity in the first case and that folding in the second.

  /** Case folding fixes the characters the translation treats apart, and folds nothing else to them. */
  ghost predicate Folding(fold: char -> char) {
    forall c :: (fold(c) == '/' <==> c == '/') && (fold(c) == '*' <==> c == '*') && (fold(c) == '?' <==> c == '?')
                && (LineEnd(fold(c)) <==> LineEnd(c))
  }

  function FoldAll(fold: char -> char, s: string): (r: string)
    ensures |r| == |s|
  {
    seq(|s|, i requires 0 <= i < |s| => fold(s[i]))
  }

  /** A word of an atom under the flags. No character but itself folds like a slash or a line terminator. */
  predicate FoldedWord(fold: char -> char, a: Atom, w: string) {
    match a
    case Lit(c) => |w| == 1 && fold(w[0]) == fold(c)
    case Star => forall i :: 0 <= i < |w| ==> fold(w[i]) != fold('/')
    case Any => |w| == 1 && fold(w[0]) != fold('/')
    case Deep => Plain(w)
    case Dirs => w == "" || (fold(w[|w| - 1]) == fold('/') && Plain(w))
  }

  predicate FoldedAccepts(fold: char -> char, atoms: seq<Atom>, s: string) {
    if atoms == [] then s == ""
    else exists k :: 0 <= k <= |s| && FoldedWord(fold, atoms[0], s[..k]) && FoldedAccepts(fold, atoms[1..], s[k..])
  }

  function FoldAtom(fold: char -> char, a: Atom): Atom {
    if a.Lit? then Lit(fold(a.c)) else a
  }

  function FoldAtoms(fold: char -> char, atoms: seq<Atom>): seq<Atom> {
    if atoms == [] then [] else [FoldAtom(fold, atoms[0])] + FoldAtoms(fold, atoms[1..])
  }

  lemma FoldedWordMeaning(fold: char -> char, a: Atom, w: string)
    requires Folding(fold)
    ensures FoldedWord(fold, a, w) <==> Word(FoldAtom(fold, a), FoldAll(fold, w))
  {
    var f := FoldAll(fold, w);
    assert forall i :: 0 <= i < |w| ==>
      f[i] == fold(w[i]) && (f[i] == '/' <==> w[i] == '/') && (LineEnd(f[i]) <==> LineEnd(w[i]));
  }

  /** Matching under the flags is plain matching of the folded texts. */
  lemma {:induction false} FoldedAcceptsMeaning(fold: char -> char, atoms: seq<Atom>, s: string)
    requires Folding(fold)
    ensures FoldedAccepts(fold, atoms, s) <==> Accepts(FoldAtoms(fold, atoms), FoldAll(fold, s))
  {
    if atoms != [] {
      hide Folding, FoldedWord, Word, FoldAtom;
      var a, rest, f := atoms[0], atoms[1..], FoldAll(fold, s);
      assert FoldAtoms(fold, atoms)[1..] == FoldAtoms(fold, rest);
      forall k | 0 <= k <= |s|
        ensures FoldedWord(fold, a, s[..k]) <==> Word(FoldAtom(fold, a), f[..k])
        ensures FoldedAccepts(fold, rest, s[k..]) <==> Accepts(FoldAtoms(fold, rest), f[k..])
      {
        assert FoldAll(fold, s[..k]) == f[..k] && FoldAll(fold, s[k..]) == f[k..];
        FoldedWordMeaning(fold, a, s[..k]);
        FoldedAcceptsMeaning(fold, rest, s[k..]);
      }
    }
  }

  // ---------------------------------------------------------------------------------------------------------
  // Expression text.

  /** The characters that regular expression syntax claims for itself. */
  predicate SyntaxCharacter(c: char) {
    || c == '\\' || c == '^' || c == '$' || c == '.' || c == '*' || c == '+' || c == '?'
    || c == '(' || c == ')' || c == '[' || c == ']' || c == '{' || c == '}' || c == '|'
  }

  function Render(a: Atom): string {
    match a
    case Lit(c) => if SyntaxCharacter(c) then ['\\', c] else [c]
    case Star => "[^/]*"
    case Any => "[^/]"
    case Deep => ".*"
    case Dirs => "(?:.*/)?"
  }

  function RenderAll(atoms: seq<Atom>): string {
    if atoms == [] then "" else Render(atoms[0]) + RenderAll(atoms[1..])
  }

  /** Reads expression text of this fragment; a bare syntax character is no literal. */
  function ReadAtoms(s: string): Option<seq<Atom>> {
    if s == "" then Some([])
    else if s[0] == '[' then
      if |s| < 4 || s[..4] != "[^/]" then None
      else if |s| > 4 && s[4] == '*' then Prepend(Star, ReadAtoms(s[5..]))
      else Prepend(Any, ReadAtoms(s[4..]))
    else if s[0] == '(' then
      if |s| < 8 || s[..8] != "(?:.*/)?" then None else Prepend(Dirs, ReadAtoms(s[8..]))
    else if s[0] == '.' then
      if |s| < 2 || s[1] != '*' then None else Prepend(Deep, ReadAtoms(s[2..]))
    else if s[0] == '\\' then
      if |s| < 2 || !SyntaxCharacter(s[1]) then None else Prepend(Lit(s[1]), ReadAtoms(s[2..]))
    else if SyntaxCharacter(s[0]) then None
    else Prepend(Lit(s[0]), ReadAtoms(s[1..]))
  }

  function Prepend(a: Atom, rest: Option<seq<Atom>>): Option<seq<Atom>> {
    if rest.None? then None else Some([a] + rest.value)
  }

  /** The anchors, and the expression between them. */
  function ReadExpression(s: string): Option<seq<Atom>> {
    if |s| >= 2 && s[0] == '^' && s[|s| - 1] == '$' then ReadAtoms(s[1..|s| - 1]) else None
  }

  /** `RegExp.test`. */
  predicate ExpressionTest(fold: char -> char, expression: string, path: string) {
    var atoms := ReadExpression(expression);
    atoms.Some? && FoldedAccepts(fold, atoms.value, path)
  }

  lemma RenderAllStart(atoms: seq<Atom>)
    ensures RenderAll(atoms) == "" || RenderAll(atoms)[0] != '*'
  {
  }

  lemma ReadClass(a: Atom, rest: string)
    requires (a == Star || a == Any) && (rest == "" || rest[0] != '*')
    ensures ReadAtoms(Render(a) + rest) == Prepend(a, ReadAtoms(rest))
  {
    var s := Render(a) + rest;
    assert s[|Render(a)|..] == rest && s[..4] == "[^/]";
    assert a == Any && rest != "" ==> s[4] == rest[0];
  }

  lemma ReadRendered(a: Atom, rest: string)
    requires rest == "" || rest[0] != '*'
    ensures ReadAtoms(Render(a) + rest) == Prepend(a, ReadAtoms(rest))
  {
    if a == Star || a == Any {
      ReadClass(a, rest);
    } else {
      var s := Render(a) + rest;
      assert s[|Render(a)|..] == rest && s[..|Render(a)|] == Render(a);
    }
  }

  /** Printing is undone by reading: the escapes are exactly those the syntax needs. */
  lemma {:induction false} RenderRoundTrip(atoms: seq<Atom>)
    ensures ReadAtoms(RenderAll(atoms)) == Some(atoms)
  {
    if atoms != [] {
      assert atoms == [atoms[0]] + atoms[1..];
      RenderAllStart(atoms[1..]);
      RenderRoundTrip(atoms[1..]);
      ReadRendered(atoms[0], RenderAll(atoms[1..]));
    }
  }

  // ---------------------------------------------------------------------------------------------------------
  // The translation.

  predicate DoubleStarAt(p: string, i: nat) {
    i + 1 < |p| && p[i] == '*' && p[i + 1] == '*'
  }

  /** The atom a pattern starts with, and how many characters it is written in. */
  function FirstAtom(p: string): (r: (Atom, nat))
    requires p != ""
    ensures 1 <= r.1 <= |p|
  {
    if DoubleStarAt(p, 0) then if |p| > 2 && p[2] == '/' then (Dirs, 3) else (Deep, 2)
    else if p[0] == '*' then (Star, 1)
    else if p[0] == '?' then (Any, 1)
    else (Lit(p[0]), 1)
  }

  function Translate(p: string): seq<Atom> {
    if p == "" then [] else [FirstAtom(p).0] + Translate(p[FirstAtom(p).1..])
  }

  predicate HasWildcard(p: string) {
    '?' in p || '*' in p
  }

  /** `path.posix.extname(p) != ""`. */
  predicate HasExtension(p: string) {
    var base := LastSegment(TrimSlashes(p));
    base != ".." && exists i :: 0 < i < |base| && base[i] == '.'
  }

  function TrimSlashes(p: string): string {
    if p != "" && p[|p| - 1] == '/' then TrimSlashes(p[..|p| - 1]) else p
  }

  function LastSegment(p: string): string {
    var segments := Split(p, '/');
    segments[|segments| - 1]
  }

  /** A name without wildcards and without an extension stands for everything below it. */
  function Rewrite(p: string): string {
    if !HasWildcard(p) && !HasExtension(p) then p + "/**/*" else p
  }

  function Expression(p: string): string {
    "^" + RenderAll(Translate(Rewrite(p))) + "$"
  }

  lemma TranslateStep(pattern: string, index: nat, expression: string)
    requires index < |pattern|
    ensures
      var (a, taken) := FirstAtom(pattern[index..]);
      && index + taken <= |pattern|
      && expression + Render(a) + RenderAll(Translate(pattern[index + taken..]))
         == expression + RenderAll(Translate(pattern[index..]))
  {
    var p := pattern[index..];
    var (a, taken) := FirstAtom(p);
    assert p[taken..] == pattern[index + taken..];
    var rest := Translate(p[taken..]);
    assert ([a] + rest)[1..] == rest;
    assert RenderAll(Translate(p)) == Render(a) + RenderAll(rest);
  }

  /** The branches of the loop body: what one step appends, and how far it moves the index. */
  method NextText(pattern: string, index: nat) returns (text: string, taken: nat)
    requires index < |pattern|
    ensures text == Render(FirstAtom(pattern[index..]).0) && taken == FirstAtom(pattern[index..]).1
  {
    var c := pattern[index];
    if c == '*' && index + 1 < |pattern| && pattern[index + 1] == '*' {
      var followedBySlash := index + 2 < |pattern| && pattern[index + 2] == '/';
      text := if followedBySlash then "(?:.*/)?" else ".*";
      taken := if followedBySlash then 3 else 2;
    } else if c == '*' {
      text, taken := "[^/]*", 1;
    } else if c == '?' {
      text, taken := "[^/]", 1;
    } else {
      text, taken := if SyntaxCharacter(c) then ['\\', c] else [c], 1;
    }
  }

  /** `patternRegExp`: the rewrite of a bare name, then the index loop that builds the expression text. */
  method PatternRegExp(rawPattern: string) returns (expression: string)
    ensures expression == Expression(rawPattern)
  {
    var pattern := rawPattern;
    if !HasWildcard(pattern) {
      pattern := if HasExtension(pattern) then pattern else pattern + "/**/*";
    }
    expression := CompilePattern(pattern);
  }

  lemma NothingLeft(p: string)
    requires p == ""
    ensures RenderAll(Translate(p)) == ""
  {
  }

  method CompilePattern(pattern: string) returns (expression: string)
    ensures expression == "^" + RenderAll(Translate(pattern)) + "$"
  {
    hide *;
    expression := "^";
    var index := 0;
    ghost var whole := expression + RenderAll(Translate(pattern));
    assert pattern[0..] == pattern;
    while index < |pattern|
      invariant 0 <= index <= |pattern|
      invariant expression + RenderAll(Translate(pattern[index..])) == whole
    {
      var text, taken := NextText(pattern, index);
      TranslateStep(pattern, index, expression);
      expression := expression + text;
      index := index + taken;
    }
    NothingLeft(pattern[index..]);
    assert expression == whole;
    expression := expression + "$";
  }

  lemma {:induction false} FoldTranslate(fold: char -> char, p: string)
    requires Folding(fold)
    ensures FoldAtoms(fold, Translate(p)) == Translate(FoldAll(fold, p))
    decreases |p|
  {
    if p != "" {
      var f := FoldAll(fold, p);
      var (a, taken) := FirstAtom(p);
      assert FirstAtom(f) == (FoldAtom(fold, a), taken);
      assert f[taken..] == FoldAll(fold, p[taken..]);
      FoldTranslate(fold, p[taken..]);
    }
  }

  /** `RegExp.test` on the produced expression is the language of the translation. */
  lemma ExpressionMeaning(fold: char -> char, p: string, path: string)
    requires Folding(fold)
    ensures ExpressionTest(fold, Expression(p), path) <==>
      Accepts(Translate(FoldAll(fold, Rewrite(p))), FoldAll(fold, path))
  {
    ExpressionReads(p);
    FoldedAcceptsMeaning(fold, Translate(Rewrite(p)), path);
    FoldTranslate(fold, Rewrite(p));
  }

  /** The produced text parses, to the translation of the pattern. */
  lemma ExpressionReads(p: string)
    ensures ReadExpression(Expression(p)) == Some(Translate(Rewrite(p)))
  {
    var body := RenderAll(Translate(Rewrite(p)));
    assert ("^" + body + "$")[1..|body| + 1] == body;
    RenderRoundTrip(Translate(Rewrite(p)));
  }

  // ---------------------------------------------------------------------------------------------------------
  // The reference: matching segment by segment.

  /** `*` and `?` inside one segment. */
  predicate Wild(p: string, t: string)
    decreases |p| + |t|
  {
    if p == "" then t == ""
    else if p[0] == '*' then Wild(p[1..], t) || (t != "" && Wild(p, t[1..]))
    else t != "" && (p[0] == '?' || p[0] == t[0]) && Wild(p[1..], t[1..])
  }

  /** `**` takes zero or more segments before another pattern segment, and one or more at the end. */
  predicate SegmentsMatch(ps: seq<string>, ts: seq<string>)
    decreases |ps| + |ts|
  {
    if ps == [] then ts == []
    else if ps[0] == "**" then
      if |ps| == 1 then ts != [] && forall t :: t in ts ==> Plain(t)
      else SegmentsMatch(ps[1..], ts) || (ts != [] && Plain(ts[0]) && SegmentsMatch(ps, ts[1..]))
    else ts != [] && Wild(ps[0], ts[0]) && SegmentsMatch(ps[1..], ts[1..])
  }

  predicate HasDoubleStar(s: string) {
    exists i: nat :: i < |s| && DoubleStarAt(s, i)
  }

  /** Every `**` is a segment of its own. */
  predicate WholeStars(p: string) {
    forall segment :: segment in Split(p, '/') ==> segment == "**" || !HasDoubleStar(segment)
  }

  /** The pieces of the folded pattern are the folded pieces of the pattern. */
  predicate PiecesFolded(fold: char -> char, pieces: seq<string>, folded: seq<string>) {
    |folded| == |pieces| >= 1 && forall i :: 0 <= i < |pieces| ==> folded[i] == FoldAll(fold, pieces[i])
  }

  lemma FoldedOnto(fold: char -> char, c: char, pieces: seq<string>, folded: seq<string>)
    requires PiecesFolded(fold, pieces, folded)
    ensures PiecesFolded(fold, [[c] + pieces[0]] + pieces[1..], [[fold(c)] + folded[0]] + folded[1..])
    ensures PiecesFolded(fold, [[]] + pieces, [[]] + folded)
  {
    assert FoldAll(fold, []) == [];
    assert FoldAll(fold, [c] + pieces[0]) == [fold(c)] + FoldAll(fold, pieces[0]);
  }

  lemma FoldFirst(fold: char -> char, p: string)
    requires Folding(fold) && p != ""
    ensures
      var rest, folded := Split(p[1..], '/'), Split(FoldAll(fold, p[1..]), '/');
      && Split(p, '/') == (if p[0] == '/' then [[]] + rest else [[p[0]] + rest[0]] + rest[1..])
      && Split(FoldAll(fold, p), '/')
         == (if p[0] == '/' then [[]] + folded else [[fold(p[0])] + folded[0]] + folded[1..])
  {
    var f := FoldAll(fold, p);
    assert f[1..] == FoldAll(fold, p[1..]) && f[0] == fold(p[0]);
  }

  lemma {:induction false} FoldSplit(fold: char -> char, p: string)
    requires Folding(fold)
    ensures PiecesFolded(fold, Split(p, '/'), Split(FoldAll(fold, p), '/'))
  {
    if p != "" {
      FoldFirst(fold, p);
      hide *;
      FoldSplit(fold, p[1..]);
      FoldedOnto(fold, p[0], Split(p[1..], '/'), Split(FoldAll(fold, p[1..]), '/'));
    }
  }

  lemma SplitAt(s: string, i: nat)
    requires i < |s| && s[i] == '/' && '/' !in s[..i]
    ensures Split(s, '/') == [s[..i]] + Split(s[i + 1..], '/')
  {
    if i > 0 {
      assert s[1..][..i - 1] == s[..i][1..];
      assert s[1..][i..] == s[i + 1..];
      SplitAt(s[1..], i - 1);
      assert [s[0]] + s[1..][..i - 1] == s[..i];
    } else {
      assert s[..0] == "";
    }
  }

  lemma SplitWhole(s: string)
    requires '/' !in s
    ensures Split(s, '/') == [s]
  {
    if s != "" {
      assert s == [s[0]] + s[1..];
      SplitWhole(s[1..]);
    }
  }

  lemma AcceptsOne(a: Atom, s: string)
    ensures Accepts([a], s) <==> Word(a, s)
  {
    assert s[..|s|] == s;
    if Word(a, s) {
      assert Accepts([a][1..], s[|s|..]);
    }
  }

  lemma AcceptsLit(c: char, rest: seq<Atom>, s: string)
    ensures Accepts([Lit(c)] + rest, s) <==> s != "" && s[0] == c && Accepts(rest, s[1..])
  {
    assert ([Lit(c)] + rest)[1..] == rest;
    if s != "" && s[0] == c && Accepts(rest, s[1..]) {
      assert Word(Lit(c), s[..1]);
    }
  }

  lemma HeadCut(a: Atom, rest: seq<Atom>, s: string) returns (k: nat)
    requires Accepts([a] + rest, s)
    ensures k <= |s| && Word(a, s[..k]) && Accepts(rest, s[k..])
  {
    assert ([a] + rest)[1..] == rest;
    k :| 0 <= k <= |s| && Word(a, s[..k]) && Accepts(rest, s[k..]);
  }

  lemma HeadJoin(a: Atom, rest: seq<Atom>, s: string, k: nat)
    requires k <= |s| && Word(a, s[..k]) && Accepts(rest, s[k..])
    ensures Accepts([a] + rest, s)
  {
    assert ([a] + rest)[1..] == rest;
  }

  lemma {:induction false} AcceptsAppend(a: seq<Atom>, b: seq<Atom>, s: string)
    ensures Accepts(a + b, s) <==> exists k :: 0 <= k <= |s| && Accepts(a, s[..k]) && Accepts(b, s[k..])
  {
    if Accepts(a + b, s) {
      var k := AcceptsCut(a, b, s);
    }
    if k :| 0 <= k <= |s| && Accepts(a, s[..k]) && Accepts(b, s[k..]) {
      AcceptsJoin(a, b, s, k);
    }
  }

  lemma CutTwice(s: string, k: nat, j: nat)
    requires k + j <= |s|
    ensures s[..k + j][..k] == s[..k] && s[..k + j][k..] == s[k..][..j] && s[k..][j..] == s[k + j..]
  {
  }

  lemma {:induction false} AcceptsCut(a: seq<Atom>, b: seq<Atom>, s: string) returns (cut: nat)
    requires Accepts(a + b, s)
    ensures cut <= |s| && Accepts(a, s[..cut]) && Accepts(b, s[cut..])
  {
    hide *;
    if a == [] {
      EmptyFront(b, s);
      cut := 0;
    } else {
      var k := FirstCut(a, b, s);
      var j := AcceptsCut(a[1..], b, s[k..]);
      cut := k + j;
      CutTwice(s, k, j);
      FrontCut(a, s[..cut], k);
    }
  }

  lemma EmptyFront(b: seq<Atom>, s: string)
    requires Accepts([] + b, s)
    ensures Accepts([], s[..0]) && Accepts(b, s[0..])
  {
    assert [] + b == b && s[0..] == s;
  }

  lemma FirstCut(a: seq<Atom>, b: seq<Atom>, s: string) returns (k: nat)
    requires a != [] && Accepts(a + b, s)
    ensures k <= |s| && Word(a[0], s[..k]) && Accepts(a[1..] + b, s[k..])
  {
    hide Word;
    assert (a + b)[1..] == a[1..] + b;
    k :| k <= |s| && Word(a[0], s[..k]) && Accepts(a[1..] + b, s[k..]);
  }

  lemma FrontCut(a: seq<Atom>, s: string, k: nat)
    requires a != [] && k <= |s| && Word(a[0], s[..k]) && Accepts(a[1..], s[k..])
    ensures Accepts(a, s)
  {
  }

  lemma {:induction false} AcceptsJoin(a: seq<Atom>, b: seq<Atom>, s: string, k: nat)
    requires k <= |s| && Accepts(a, s[..k]) && Accepts(b, s[k..])
    ensures Accepts(a + b, s)
  {
    if a == [] {
      assert a + b == b && s[0..] == s;
    } else {
      assert (a + b)[1..] == a[1..] + b;
      var j :| 0 <= j <= k && Word(a[0], s[..k][..j]) && Accepts(a[1..], s[..k][j..]);
      assert s[..k][..j] == s[..j] && s[..k][j..] == s[j..][..k - j] && s[k..] == s[j..][k - j..];
      AcceptsJoin(a[1..], b, s[j..], k - j);
    }
  }

  lemma AcceptsAny(rest: seq<Atom>, s: string)
    ensures Accepts([Any] + rest, s) <==> s != "" && s[0] != '/' && Accepts(rest, s[1..])
  {
    assert ([Any] + rest)[1..] == rest;
    if s != "" && s[0] != '/' && Accepts(rest, s[1..]) {
      assert Word(Any, s[..1]);
    }
  }

  lemma StarWord(s: string, k: nat)
    requires k < |s|
    ensures Word(Star, s[..k + 1]) <==> s[0] != '/' && Word(Star, s[1..][..k])
  {
    assert s[..k + 1] == [s[0]] + s[1..][..k];
  }

  // `[^/]*` takes nothing, or one more character.
  lemma AcceptsStar(rest: seq<Atom>, s: string)
    ensures Accepts([Star] + rest, s) <==>
      Accepts(rest, s) || (s != "" && s[0] != '/' && Accepts([Star] + rest, s[1..]))
  {
    hide Accepts, Word;
    assert s[0..] == s;
    if Accepts([Star] + rest, s) {
      var k := HeadCut(Star, rest, s);
      if k > 0 {
        StarWord(s, k - 1);
        assert s[1..][k - 1..] == s[k..];
        HeadJoin(Star, rest, s[1..], k - 1);
      }
    }
    if Accepts(rest, s) {
      AcceptsNoWord(Star, rest, s);
    }
    if s != "" && s[0] != '/' && Accepts([Star] + rest, s[1..]) {
      var k := HeadCut(Star, rest, s[1..]);
      StarWord(s, k);
      assert s[k + 1..] == s[1..][k..];
      HeadJoin(Star, rest, s, k + 1);
    }
  }

  lemma AcceptsNoWord(a: Atom, rest: seq<Atom>, s: string)
    requires (a == Star || a == Dirs) && Accepts(rest, s)
    ensures Accepts([a] + rest, s)
  {
    hide Accepts;
    assert s[0..] == s && Word(a, s[..0]);
    HeadJoin(a, rest, s, 0);
  }

  lemma PlainAppend(a: string, b: string)
    ensures Plain(a + b) <==> Plain(a) && Plain(b)
  {
    assert forall i :: 0 <= i < |b| ==> b[i] == (a + b)[|a| + i];
    assert forall i :: 0 <= i < |a| ==> a[i] == (a + b)[i];
  }

  /** A word ending in a slash covers the first segment, its slash, and another such word or nothing. */
  lemma DirsWord(s: string, f: nat, j: nat)
    requires f + 1 + j <= |s| && s[f] == '/'
    ensures Word(Dirs, s[..f + 1 + j]) <==> Plain(s[..f]) && Word(Dirs, s[f + 1..][..j])
  {
    var behind := s[f + 1..][..j];
    assert s[..f + 1 + j] == (s[..f] + "/") + behind;
    PlainAppend(s[..f] + "/", behind);
    PlainAppend(s[..f], "/");
  }

  lemma DirsReaches(s: string, f: nat, k: nat)
    requires f < |s| && '/' !in s[..f] && 0 < k <= |s| && Word(Dirs, s[..k])
    ensures k > f
  {
    assert s[..k][k - 1] == s[k - 1];
    assert forall i :: 0 <= i < f ==> s[..f][i] == s[i];
  }

  lemma DirsCut(rest: seq<Atom>, s: string, f: nat)
    requires f < |s| && s[f] == '/' && '/' !in s[..f]
    requires Accepts([Dirs] + rest, s)
    ensures Accepts(rest, s) || (Plain(s[..f]) && Accepts([Dirs] + rest, s[f + 1..]))
  {
    hide Accepts, Word, Plain;
    var k := HeadCut(Dirs, rest, s);
    assert s[0..] == s;
    if k > 0 {
      DirsReaches(s, f, k);
      var j := k - f - 1;
      assert s[f + 1..][j..] == s[k..];
      DirsWord(s, f, j);
      HeadJoin(Dirs, rest, s[f + 1..], j);
    }
  }

  lemma DirsJoin(rest: seq<Atom>, s: string, f: nat, behind: string)
    requires f < |s| && s[f] == '/' && Plain(s[..f])
    requires behind == s[f + 1..] && Accepts([Dirs] + rest, behind)
    ensures Accepts([Dirs] + rest, s)
  {
    hide Accepts, Word, Plain;
    var j := HeadCut(Dirs, rest, behind);
    DirsWord(s, f, j);
    assert s[f + 1 + j..] == behind[j..];
    HeadJoin(Dirs, rest, s, f + 1 + j);
  }

  // `(?:.*/)?` takes nothing, or the first segment with its slash and then possibly more.
  lemma AcceptsDirs(rest: seq<Atom>, s: string, f: nat)
    requires f < |s| && s[f] == '/' && '/' !in s[..f]
    ensures Accepts([Dirs] + rest, s) <==>
      Accepts(rest, s) || (Plain(s[..f]) && Accepts([Dirs] + rest, s[f + 1..]))
  {
    hide Accepts, Plain;
    if Accepts([Dirs] + rest, s) {
      DirsCut(rest, s, f);
    }
    if Accepts(rest, s) {
      AcceptsNoWord(Dirs, rest, s);
    }
    if Plain(s[..f]) && Accepts([Dirs] + rest, s[f + 1..]) {
      DirsJoin(rest, s, f, s[f + 1..]);
    }
  }

  lemma AcceptsDirsWhole(rest: seq<Atom>, s: string)
    requires '/' !in s
    ensures Accepts([Dirs] + rest, s) <==> Accepts(rest, s)
  {
    assert ([Dirs] + rest)[1..] == rest && s[0..] == s;
    if Accepts(rest, s) {
      assert Word(Dirs, s[..0]);
    }
  }

  /** The translation of a segment is a prefix of the translation of the pattern it starts. */
  /** The first character of a segment without `**` is an atom of its own, whatever follows the segment. */
  lemma SegmentFirst(segment: string, tail: string) returns (a: Atom)
    requires segment != "" && '/' !in segment && !HasDoubleStar(segment)
    requires tail == "" || tail[0] == '/'
    ensures Translate(segment) == [a] + Translate(segment[1..])
    ensures Translate(segment + tail) == [a] + Translate(segment[1..] + tail)
    ensures '/' !in segment[1..] && !HasDoubleStar(segment[1..])
  {
    var p := segment + tail;
    a := FirstAtom(segment).0;
    assert p[1..] == segment[1..] + tail;
    assert !DoubleStarAt(segment, 0);
    assert forall i: nat :: i < |segment[1..]| && DoubleStarAt(segment[1..], i) ==> DoubleStarAt(segment, i + 1);
    assert FirstAtom(p) == FirstAtom(segment) == (a, 1);
  }

  lemma {:induction false} TranslateSegment(segment: string, tail: string)
    requires '/' !in segment && !HasDoubleStar(segment)
    requires tail == "" || tail[0] == '/'
    ensures Translate(segment + tail) == Translate(segment) + Translate(tail)
  {
    if segment == "" {
      assert segment + tail == tail;
    } else {
      var a := SegmentFirst(segment, tail);
      hide *;
      TranslateSegment(segment[1..], tail);
      assert [a] + (Translate(segment[1..]) + Translate(tail)) == [a] + Translate(segment[1..]) + Translate(tail);
    }
  }

  /** A segment's expression accepts the slash-free words its wildcards describe. */
  lemma {:induction false} SegmentMeaning(segment: string, w: string)
    requires '/' !in segment && !HasDoubleStar(segment)
    ensures Accepts(Translate(segment), w) <==> '/' !in w && Wild(segment, w)
    decreases |segment| + |w|
  {
    if segment != "" {
      var rest := segment[1..];
      assert segment == [segment[0]] + rest;
      assert forall i: nat :: i < |rest| && DoubleStarAt(rest, i) ==> DoubleStarAt(segment, i + 1);
      assert w != "" ==> w == [w[0]] + w[1..];
      assert !DoubleStarAt(segment, 0);
      if segment[0] == '*' {
        AcceptsStar(Translate(rest), w);
        SegmentMeaning(rest, w);
        if w != "" { SegmentMeaning(segment, w[1..]); }
      } else {
        if segment[0] == '?' { AcceptsAny(Translate(rest), w); } else { AcceptsLit(segment[0], Translate(rest), w); }
        if w != "" { SegmentMeaning(rest, w[1..]); }
      }
    }
  }

  lemma {:induction false} EmptyMatchesNothing(ps: seq<string>)
    requires ps != []
    ensures !SegmentsMatch(ps, [])
  {
    if ps[0] == "**" && |ps| > 1 {
      EmptyMatchesNothing(ps[1..]);
    }
  }

  /** A string is free of line terminators exactly when its segments are. */
  lemma {:induction false} PlainSegments(s: string)
    ensures Plain(s) <==> forall t :: t in Split(s, '/') ==> Plain(t)
  {
    if '/' in s {
      var f := IndexOf(s, '/').value;
      SplitAt(s, f);
      PlainSegments(s[f + 1..]);
      assert s == (s[..f] + "/") + s[f + 1..];
      PlainAppend(s[..f] + "/", s[f + 1..]);
      PlainAppend(s[..f], "/");
      assert Split(s, '/')[0] == s[..f];
      assert forall t :: t in Split(s[f + 1..], '/') ==> t in Split(s, '/');
    } else {
      SplitWhole(s);
    }
  }

  lemma DeepStep(qs: seq<string>, first: string, behind: seq<string>)
    requires qs != []
    ensures SegmentsMatch(["**"] + qs, [first] + behind) <==>
      SegmentsMatch(qs, [first] + behind) || (Plain(first) && SegmentsMatch(["**"] + qs, behind))
  {
    assert (["**"] + qs)[1..] == qs && ([first] + behind)[1..] == behind;
  }

  lemma DeepStepLast(qs: seq<string>, only: string)
    requires qs != []
    ensures SegmentsMatch(["**"] + qs, [only]) <==> SegmentsMatch(qs, [only])
  {
    DeepStep(qs, only, []);
    EmptyMatchesNothing(["**"] + qs);
    assert [only] + [] == [only];
  }

  /** A `**` segment in front of a pattern, over every path. */
  lemma {:induction false} DirsMeaning(q: string, t: string)
    requires WholeStars(q)
    ensures Accepts([Dirs] + Translate(q), t) <==> SegmentsMatch(["**"] + Split(q, '/'), Split(t, '/'))
    decreases |q|, 1, |t|
  {
    hide Accepts, SegmentsMatch, Plain, WholeStars, Split, Translate;
    GlobMeaning(q, t);
    if '/' in t {
      var f := IndexOf(t, '/').value;
      SplitAt(t, f);
      AcceptsDirs(Translate(q), t, f);
      DirsMeaning(q, t[f + 1..]);
      DeepStep(Split(q, '/'), t[..f], Split(t[f + 1..], '/'));
    } else {
      SplitWhole(t);
      AcceptsDirsWhole(Translate(q), t);
      DeepStepLast(Split(q, '/'), t);
    }
  }

  lemma MatchFirst(segment: string, qs: seq<string>, ts: seq<string>)
    requires !HasDoubleStar(segment)
    ensures SegmentsMatch([segment] + qs, ts) <==> ts != [] && Wild(segment, ts[0]) && SegmentsMatch(qs, ts[1..])
  {
    assert DoubleStarAt("**", 0);
    assert ([segment] + qs)[1..] == qs;
  }

  /** An ordinary first segment, over every path. */
  lemma {:induction false} FirstSegmentMeaning(segment: string, q: string, t: string)
    requires '/' !in segment && !HasDoubleStar(segment) && WholeStars(q)
    ensures Accepts(Translate(segment) + ([Lit('/')] + Translate(q)), t) <==>
      SegmentsMatch([segment] + Split(q, '/'), Split(t, '/'))
    decreases |q|, 1, |t|
  {
    hide *;
    var a, b := Translate(segment), [Lit('/')] + Translate(q);
    AcceptsAppend(a, b, t);
    MatchFirst(segment, Split(q, '/'), Split(t, '/'));
    if Accepts(a + b, t) {
      var k :| 0 <= k <= |t| && Accepts(a, t[..k]) && Accepts(b, t[k..]);
      AcceptsLit('/', Translate(q), t[k..]);
      SegmentMeaning(segment, t[..k]);
      SplitAt(t, k);
      assert t[k..][1..] == t[k + 1..];
      GlobMeaning(q, t[k + 1..]);
    }
    if SegmentsMatch([segment] + Split(q, '/'), Split(t, '/')) {
      if '/' in t {
        var f := IndexOf(t, '/').value;
        SplitAt(t, f);
        SegmentMeaning(segment, t[..f]);
        GlobMeaning(q, t[f + 1..]);
        AcceptsLit('/', Translate(q), t[f..]);
        assert t[f..][1..] == t[f + 1..];
      } else {
        SplitWhole(t);
        assert [t][1..] == [];
        EmptyMatchesNothing(Split(q, '/'));
      }
    }
  }

  lemma TranslateDirs(q: string)
    ensures Translate("**" + (['/'] + q)) == [Dirs] + Translate(q)
  {
    var p := "**" + (['/'] + q);
    assert FirstAtom(p) == (Dirs, 3) && p[3..] == q;
  }

  lemma TranslateSlash(q: string)
    ensures Translate(['/'] + q) == [Lit('/')] + Translate(q)
  {
    var p := ['/'] + q;
    assert FirstAtom(p) == (Lit('/'), 1) && p[1..] == q;
  }

  lemma WholeStarsParts(p: string, segment: string, q: string)
    requires WholeStars(p) && Split(p, '/') == [segment] + Split(q, '/')
    ensures WholeStars(q) && (segment == "**" || !HasDoubleStar(segment))
  {
    hide Split, HasDoubleStar;
    assert segment in Split(p, '/');
    assert forall s :: s in Split(q, '/') ==> s in Split(p, '/');
  }

  /** The expression of a pattern accepts exactly the paths the segment matcher accepts. */
  lemma {:induction false} GlobMeaning(p: string, t: string)
    requires WholeStars(p)
    ensures Accepts(Translate(p), t) <==> SegmentsMatch(Split(p, '/'), Split(t, '/'))
    decreases |p|, 0
  {
    hide Accepts, SegmentsMatch, Split, HasDoubleStar, Translate;
    if '/' in p {
      var f := IndexOf(p, '/').value;
      var segment, q := p[..f], p[f + 1..];
      SplitAt(p, f);
      WholeStarsParts(p, segment, q);
      assert p == segment + (['/'] + q);
      if segment == "**" {
        TranslateDirs(q);
        DirsMeaning(q, t);
      } else {
        TranslateSegment(segment, ['/'] + q);
        TranslateSlash(q);
        FirstSegmentMeaning(segment, q, t);
      }
    } else {
      SplitWhole(p);
      assert p in Split(p, '/');
      LastSegmentMeaning(p, t);
    }
  }

  lemma {:induction false} LastSegmentMeaning(p: string, t: string)
    requires '/' !in p && (p == "**" || !HasDoubleStar(p))
    ensures Accepts(Translate(p), t) <==> SegmentsMatch([p], Split(t, '/'))
  {
    if p == "**" {
      assert FirstAtom(p) == (Deep, 2) && Translate(p) == [Deep];
      AcceptsOne(Deep, t);
      PlainSegments(t);
    } else {
      SegmentMeaning(p, t);
      if '/' in t {
        SplitAt(t, IndexOf(t, '/').value);
      } else {
        SplitWhole(t);
      }
    }
  }
}
