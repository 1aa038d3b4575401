/**
 For every pattern that is not faithful, a path that tells its expression and the segment matcher apart. The paths are
 built from one word per piece of the pattern, with a line terminator for each wildcard, so that `**` segments can
 take as few of their segments as possible.
 */
module GlobWitness {
  import opened Common
  import opened GlobRegex
  import opened GlobExact

  // ---------------------------------------------------------------------------------------------------------
  // Words.

  function Pick(a: Atom, e: char): (w: string)
    ensures e != '/' ==> Word(a, w)
  {
    match a
    case Lit(c) => [c]
    case Star => [e]
    case Any => [e]
    case Deep => ""
    case Dirs => ""
  }

  /** The shortest word of each atom but `*`, with `e` for the wildcards. */
  function Text(atoms: seq<Atom>, e: char): string {
    if atoms == [] then "" else Pick(atoms[0], e) + Text(atoms[1..], e)
  }

  lemma {:induction false} TextAppend(a: seq<Atom>, b: seq<Atom>, e: char)
    ensures Text(a + b, e) == Text(a, e) + Text(b, e)
  {
    if a == [] {
      assert a + b == b;
    } else {
      assert (a + b)[1..] == a[1..] + b;
      hide Pick;
      TextAppend(a[1..], b, e);
    }
  }

  lemma TextOne(a: Atom, b: seq<Atom>, e: char)
    ensures Text([a] + b, e) == Pick(a, e) + Text(b, e)
  {
    assert ([a] + b)[1..] == b;
  }

  lemma {:induction false} TextAccepted(atoms: seq<Atom>, e: char)
    requires e != '/'
    ensures Accepts(atoms, Text(atoms, e))
  {
    if atoms != [] {
      var w, rest := Pick(atoms[0], e), Text(atoms[1..], e);
      TextAccepted(atoms[1..], e);
      hide Accepts, Pick;
      assert (w + rest)[..|w|] == w && (w + rest)[|w|..] == rest && atoms == [atoms[0]] + atoms[1..];
      HeadJoin(atoms[0], atoms[1..], w + rest, |w|);
    }
  }

  /** A `.*` may take more than its shortest word. */
  lemma CrossingAccepted(x: seq<Atom>, y: seq<Atom>, d: string, e: char)
    requires e != '/' && Plain(d)
    ensures Accepts(x + ([Deep] + y), Text(x, e) + (d + Text(y, e)))
  {
    assert Word(Deep, d);
    hide *;
    var tail := d + Text(y, e);
    TextAccepted(x, e);
    TextAccepted(y, e);
    assert tail[..|d|] == d && tail[|d|..] == Text(y, e);
    HeadJoin(Deep, y, tail, |d|);
    var t, k := Text(x, e) + tail, |Text(x, e)|;
    assert t[..k] == Text(x, e) && t[k..] == tail;
    AcceptsJoin(x, [Deep] + y, t, k);
  }

  // Slashes.

  function Slashes(s: string): nat {
    if s == "" then 0 else (if s[0] == '/' then 1 else 0) + Slashes(s[1..])
  }

  lemma {:induction false} SlashesAppend(a: string, b: string)
    ensures Slashes(a + b) == Slashes(a) + Slashes(b)
  {
    if a == "" {
      assert a + b == b;
    } else {
      assert (a + b)[1..] == a[1..] + b;
      SlashesAppend(a[1..], b);
    }
  }

  lemma {:induction false} NoSlashes(s: string)
    ensures Slashes(s) == 0 <==> '/' !in s
  {
    if s != "" {
      NoSlashes(s[1..]);
    }
  }

  lemma {:induction false} SplitCounts(s: string)
    ensures |Split(s, '/')| == Slashes(s) + 1
  {
    if s != "" {
      SplitCounts(s[1..]);
    }
  }

  /** The slashes that every accepted path needs. */
  function LitSlashes(atoms: seq<Atom>): nat {
    if atoms == [] then 0 else (if atoms[0] == Lit('/') then 1 else 0) + LitSlashes(atoms[1..])
  }

  lemma {:induction false} LitSlashesAppend(a: seq<Atom>, b: seq<Atom>)
    ensures LitSlashes(a + b) == LitSlashes(a) + LitSlashes(b)
  {
    if a == [] {
      assert a + b == b;
    } else {
      assert (a + b)[1..] == a[1..] + b;
      LitSlashesAppend(a[1..], b);
    }
  }

  lemma PickSlashes(a: Atom, e: char)
    requires e != '/'
    ensures Slashes(Pick(a, e)) == if a == Lit('/') then 1 else 0
  {
    var w := Pick(a, e);
    if w != "" {
      assert w[1..] == "";
    }
  }

  lemma {:induction false} TextSlashes(atoms: seq<Atom>, e: char)
    requires e != '/'
    ensures Slashes(Text(atoms, e)) == LitSlashes(atoms)
  {
    if atoms != [] {
      PickSlashes(atoms[0], e);
      SlashesAppend(Pick(atoms[0], e), Text(atoms[1..], e));
      TextSlashes(atoms[1..], e);
    }
  }

  lemma WordSlashes(a: Atom, w: string)
    requires Word(a, w)
    ensures Slashes(w) >= if a == Lit('/') then 1 else 0
  {
    assert a == Lit('/') ==> w == "/";
  }

  lemma {:induction false} AcceptsSlashes(atoms: seq<Atom>, t: string)
    requires Accepts(atoms, t)
    ensures Slashes(t) >= LitSlashes(atoms)
  {
    if atoms != [] {
      var k :| 0 <= k <= |t| && Word(atoms[0], t[..k]) && Accepts(atoms[1..], t[k..]);
      hide Accepts, Word, Slashes;
      AcceptsSlashes(atoms[1..], t[k..]);
      WordSlashes(atoms[0], t[..k]);
      SlashesAppend(t[..k], t[k..]);
      assert t == t[..k] + t[k..];
    }
  }

  // ---------------------------------------------------------------------------------------------------------
  // Segments and their atoms.

  /** In front of a slash the last pair of stars takes the slash as well. */
  predicate Open(s: string) {
    s != "" && if DoubleStarAt(s, 0) then s == "**" || Open(s[2..]) else Open(s[1..])
  }

  predicate EvenStars(s: string) {
    s != "" ==> DoubleStarAt(s, 0) && EvenStars(s[2..])
  }

  lemma {:induction false} EvenStarsOpen(s: string)
    requires EvenStars(s) && s != ""
    ensures Open(s)
  {
    if s[2..] != "" {
      EvenStarsOpen(s[2..]);
    } else {
      assert s == "**";
    }
  }

  /** What a segment starts with does not depend on a slash behind it, unless the segment is `**`. */
  lemma FirstInSegment(s: string, q: string)
    requires s != "" && s != "**" && '/' !in s
    ensures
      var (a, n) := FirstAtom(s);
      && n == (if DoubleStarAt(s, 0) then 2 else 1) && a != Dirs && a != Lit('/')
      && (a == Deep <==> n == 2)
      && Translate(s) == [a] + Translate(s[n..])
      && Translate(s + (['/'] + q)) == [a] + Translate(s[n..] + (['/'] + q))
  {
    var p := s + (['/'] + q);
    var (a, n) := FirstAtom(s);
    assert p[n..] == s[n..] + (['/'] + q);
    assert FirstAtom(p) == (a, n);
  }

  lemma StarsTakeSlash(q: string)
    ensures Translate("**" + (['/'] + q)) == [Dirs] + Translate(q)
    ensures Translate("**" + ['/']) == [Dirs] && Translate("**") == [Deep]
  {
    TranslateDirs(q);
    assert ['/'] + "" == ['/'];
    TranslateDirs("");
    assert FirstAtom("**") == (Deep, 2) && "**"[2..] == "";
  }

  lemma NothingTakesSlash(q: string)
    ensures Translate("" + (['/'] + q)) == Translate("" + ['/']) + Translate(q)
    ensures Translate("" + ['/']) == Translate("") + [Lit('/')]
  {
    assert Translate("") == [];
    TranslateSlash(q);
    TranslateSlash("");
    hide *;
    assert "" + (['/'] + q) == ['/'] + q && "" + ['/'] == ['/'] + "";
    assert [Lit('/')] + [] == [Lit('/')] == [] + [Lit('/')];
  }

  lemma SlashAlone(s: string)
    ensures s + (['/'] + "") == s + ['/']
  {
  }

  /** A pattern is translated segment by segment, each with the slash behind it. */
  lemma {:induction false} TranslateSplit(s: string, q: string)
    requires '/' !in s
    ensures Translate(s + (['/'] + q)) == Translate(s + ['/']) + Translate(q)
    decreases |s|
  {
    hide *;
    if s == "" {
      NothingTakesSlash(q);
    } else if s == "**" {
      StarsTakeSlash(q);
    } else {
      var (a, n) := FirstAtom(s);
      var tail := s[n..];
      FirstInSegment(s, q);
      FirstInSegment(s, "");
      SlashAlone(s);
      SlashAlone(tail);
      TranslateSplit(tail, q);
      assert [a] + (Translate(tail + ['/']) + Translate(q)) == [a] + Translate(tail + ['/']) + Translate(q);
    }
  }

  lemma OpenStep(s: string)
    requires s != "" && s != "**" && '/' !in s
    ensures Open(s) <==> Open(s[FirstAtom(s).1..])
  {
  }

  lemma {:induction false} ClosedAtoms(s: string)
    requires '/' !in s && !Open(s)
    ensures Translate(s + ['/']) == Translate(s) + [Lit('/')]
    decreases |s|
  {
    if s == "" {
      assert s + ['/'] == ['/'] + "";
      TranslateSlash("");
      assert [Lit('/')] + Translate("") == [Lit('/')];
    } else {
      var (a, n) := FirstAtom(s);
      assert s != "**";
      OpenStep(s);
      FirstInSegment(s, "");
      hide *;
      ClosedAtoms(s[n..]);
      assert s + (['/'] + "") == s + ['/'] && s[n..] + (['/'] + "") == s[n..] + ['/'];
      assert [a] + (Translate(s[n..]) + [Lit('/')]) == [a] + Translate(s[n..]) + [Lit('/')];
    }
  }

  lemma {:induction false} OpenAtoms(s: string)
    requires '/' !in s && Open(s)
    ensures LitSlashes(Translate(s + ['/'])) == 0
    decreases |s|
  {
    if s == "**" {
      StarsTakeSlash("");
    } else {
      var (a, n) := FirstAtom(s);
      OpenStep(s);
      FirstInSegment(s, "");
      OpenAtoms(s[n..]);
      assert s + (['/'] + "") == s + ['/'] && s[n..] + (['/'] + "") == s[n..] + ['/'];
      LitSlashesAppend([a], Translate(s[n..] + ['/']));
    }
  }

  lemma {:induction false} SegmentAtoms(s: string, e: char)
    requires '/' !in s && e != '/'
    ensures LitSlashes(Translate(s)) == 0 && '/' !in Text(Translate(s), e)
    decreases |s|
  {
    if s != "" && s != "**" {
      var (a, n) := FirstAtom(s);
      FirstInSegment(s, "");
      SegmentAtoms(s[n..], e);
      LitSlashesAppend([a], Translate(s[n..]));
      TextOne(a, Translate(s[n..]), e);
      assert '/' !in Pick(a, e) by { PickSlashes(a, e); NoSlashes(Pick(a, e)); }
    } else if s == "**" {
      StarsTakeSlash("");
    }
  }

  // ---------------------------------------------------------------------------------------------------------
  // A segment other than `**` takes the slash behind it: a path with too few segments.

  /** No segment but `**` takes the slash behind it. */
  predicate Closed(segments: seq<string>) {
    |segments| > 1 ==> (segments[0] == "**" || !Open(segments[0])) && Closed(segments[1..])
  }

  /** The number of path segments that the segment matcher needs at least. */
  function Need(segments: seq<string>): nat {
    if |segments| <= 1 then |segments| else (if segments[0] == "**" then 0 else 1) + Need(segments[1..])
  }

  lemma {:induction false} MatchNeeds(ps: seq<string>, ts: seq<string>)
    requires SegmentsMatch(ps, ts)
    ensures |ts| >= Need(ps)
    decreases |ps| + |ts|
  {
    if ps != [] {
      if ps[0] == "**" {
        if |ps| > 1 {
          if SegmentsMatch(ps[1..], ts) { MatchNeeds(ps[1..], ts); } else { MatchNeeds(ps, ts[1..]); }
        }
      } else {
        MatchNeeds(ps[1..], ts[1..]);
      }
    }
  }

  lemma SegmentSlash(s: string)
    requires '/' !in s
    ensures LitSlashes(Translate(s + ['/'])) == if Open(s) then 0 else 1
  {
    if Open(s) {
      OpenAtoms(s);
    } else {
      ClosedAtoms(s);
      SegmentAtoms(s, 'x');
      LitSlashesAppend(Translate(s), [Lit('/')]);
      assert [Lit('/')][1..] == [];
    }
  }

  lemma NeedFirst(s: string, rest: seq<string>)
    requires rest != []
    ensures Need([s] + rest) == (if s == "**" then 0 else 1) + Need(rest)
    ensures Closed([s] + rest) <==> (s == "**" || !Open(s)) && Closed(rest)
    ensures Open("**")
  {
    assert ([s] + rest)[1..] == rest;
  }

  lemma NeedOne(s: string)
    ensures Need([s]) == 1 && Closed([s])
  {
  }

  lemma {:induction false} PatternNeeds(p: string)
    ensures LitSlashes(Translate(p)) + 1 <= Need(Split(p, '/'))
    ensures !Closed(Split(p, '/')) ==> LitSlashes(Translate(p)) + 1 < Need(Split(p, '/'))
    decreases |p|
  {
    hide *;
    if '/' in p {
      var f := IndexOf(p, '/').value;
      var s, q := p[..f], p[f + 1..];
      SplitAt(p, f);
      assert p == s + (['/'] + q);
      TranslateSplit(s, q);
      LitSlashesAppend(Translate(s + ['/']), Translate(q));
      SegmentSlash(s);
      NeedFirst(s, Split(q, '/'));
      PatternNeeds(q);
    } else {
      SplitWhole(p);
      SegmentAtoms(p, 'x');
      NeedOne(p);
    }
  }

  lemma OpenWitness(p: string) returns (t: string)
    requires !Closed(Split(p, '/'))
    ensures Accepts(Translate(p), t) && !SegmentsMatch(Split(p, '/'), Split(t, '/'))
  {
    t := Text(Translate(p), 'x');
    hide *;
    TextAccepted(Translate(p), 'x');
    TextSlashes(Translate(p), 'x');
    SplitCounts(t);
    PatternNeeds(p);
    if SegmentsMatch(Split(p, '/'), Split(t, '/')) {
      MatchNeeds(Split(p, '/'), Split(t, '/'));
    }
  }

  // ---------------------------------------------------------------------------------------------------------
  // The path of a pattern: a word for each segment, and none for a `**` with something behind it.

  function WordOf(s: string, e: char): string {
    Text(Translate(s), e)
  }

  function Front(pre: seq<string>, e: char): seq<string> {
    if pre == [] then [] else (if pre[0] == "**" then [] else [WordOf(pre[0], e)]) + Front(pre[1..], e)
  }

  function Back(post: seq<string>, e: char): seq<string> {
    if |post| <= 1 then (if post == [] then [] else [WordOf(post[0], e)])
    else (if post[0] == "**" then [] else [WordOf(post[0], e)]) + Back(post[1..], e)
  }

  /** Each word with a slash behind it. */
  function Lines(words: seq<string>): string {
    if words == [] then "" else words[0] + ("/" + Lines(words[1..]))
  }

  predicate Slashless(segments: seq<string>) {
    forall s :: s in segments ==> '/' !in s
  }

  /** Segments with another one behind them. */
  predicate ClosedFront(pre: seq<string>) {
    forall s :: s in pre ==> s == "**" || !Open(s)
  }

  function FrontAtoms(pre: seq<string>): seq<Atom> {
    if pre == [] then [] else Translate(pre[0] + ['/']) + FrontAtoms(pre[1..])
  }

  function Atoms(segments: seq<string>): seq<Atom>
    requires segments != []
  {
    if |segments| == 1 then Translate(segments[0]) else Translate(segments[0] + ['/']) + Atoms(segments[1..])
  }

  lemma {:induction false} PatternAtoms(p: string)
    ensures Translate(p) == Atoms(Split(p, '/'))
    decreases |p|
  {
    if '/' in p {
      var f := IndexOf(p, '/').value;
      var s, q := p[..f], p[f + 1..];
      SplitAt(p, f);
      assert p == s + (['/'] + q) && Split(p, '/')[1..] == Split(q, '/');
      hide Translate, Split;
      TranslateSplit(s, q);
      PatternAtoms(q);
    } else {
      SplitWhole(p);
    }
  }

  lemma {:induction false} AtomsAppend(pre: seq<string>, rest: seq<string>)
    requires rest != []
    ensures Atoms(pre + rest) == FrontAtoms(pre) + Atoms(rest)
  {
    if pre == [] {
      assert pre + rest == rest && [] + Atoms(rest) == Atoms(rest);
    } else {
      assert (pre + rest)[1..] == pre[1..] + rest;
      hide Translate;
      AtomsAppend(pre[1..], rest);
      var first := Translate(pre[0] + ['/']);
      assert first + (FrontAtoms(pre[1..]) + Atoms(rest)) == first + FrontAtoms(pre[1..]) + Atoms(rest);
    }
  }

  /** The text of one closed segment with its slash. */
  lemma SegmentText(s: string, e: char)
    requires '/' !in s && e != '/'
    ensures s == "**" ==> Text(Translate(s + ['/']), e) == ""
    ensures s != "**" && !Open(s) ==> Text(Translate(s + ['/']), e) == WordOf(s, e) + "/"
    ensures '/' !in WordOf(s, e)
  {
    SegmentAtoms(s, e);
    if s == "**" {
      StarsTakeSlash("");
      assert [Dirs][1..] == [];
    } else if !Open(s) {
      ClosedAtoms(s);
      TextAppend(Translate(s), [Lit('/')], e);
      assert [Lit('/')][1..] == [];
    }
  }

  lemma {:induction false} FrontText(pre: seq<string>, e: char)
    requires Slashless(pre) && ClosedFront(pre) && e != '/'
    ensures Text(FrontAtoms(pre), e) == Lines(Front(pre, e)) && Slashless(Front(pre, e))
  {
    if pre != [] {
      hide Open, WordOf, Text;
      assert pre[0] in pre && forall s :: s in pre[1..] ==> s in pre;
      FrontText(pre[1..], e);
      SegmentText(pre[0], e);
      TextAppend(Translate(pre[0] + ['/']), FrontAtoms(pre[1..]), e);
      FrontLines(pre, e);
    } else {
      assert Text([], e) == "";
    }
  }

  lemma FrontLines(pre: seq<string>, e: char)
    requires pre != []
    ensures Lines(Front(pre, e))
            == if pre[0] == "**" then Lines(Front(pre[1..], e)) else WordOf(pre[0], e) + "/" + Lines(Front(pre[1..], e))
  {
    if pre[0] != "**" {
      var rest := Front(pre[1..], e);
      assert ([WordOf(pre[0], e)] + rest)[1..] == rest;
      assert WordOf(pre[0], e) + ("/" + Lines(rest)) == WordOf(pre[0], e) + "/" + Lines(rest);
    } else {
      assert [] + Front(pre[1..], e) == Front(pre[1..], e);
    }
  }

  lemma LinesFirst(words: seq<string>, x: string)
    requires words != [] && Slashless(words)
    ensures Lines(words) + x == words[0] + ("/" + (Lines(words[1..]) + x))
    ensures '/' !in words[0] && Slashless(words[1..])
  {
    assert words[0] in words && forall w :: w in words[1..] ==> w in words;
    var rest := Lines(words[1..]);
    assert Lines(words) == words[0] + ("/" + rest);
    hide *;
    Regroup(words[0], "/" + rest, x);
    Regroup("/", rest, x);
  }

  lemma Regroup(a: string, b: string, c: string)
    ensures a + b + c == a + (b + c)
  {
  }

  lemma NoLines(x: string)
    ensures Lines([]) + x == x
  {
  }

  lemma {:induction false} SplitLines(words: seq<string>, x: string)
    requires Slashless(words)
    ensures Split(Lines(words) + x, '/') == words + Split(x, '/')
  {
    hide *;
    if words == [] {
      NoLines(x);
    } else {
      LinesFirst(words, x);
      SplitLines(words[1..], x);
      SplitFirst(words[0], Lines(words[1..]) + x);
      Rest(words, Split(x, '/'));
    }
  }

  lemma AtomsFirst(post: seq<string>)
    requires post != [] && Slashless(post) && Closed(post)
    ensures '/' !in post[0] && Slashless(post[1..])
    ensures |post| == 1 ==> Atoms(post) == Translate(post[0])
    ensures |post| > 1 ==> Atoms(post) == Translate(post[0] + ['/']) + Atoms(post[1..])
    ensures |post| > 1 ==> Closed(post[1..]) && (post[0] == "**" || !Open(post[0]))
  {
    assert post[0] in post && forall s :: s in post[1..] ==> s in post;
  }

  lemma {:induction false} BackText(post: seq<string>, e: char)
    requires post != [] && Slashless(post) && Closed(post) && e != '/'
    ensures Split(Text(Atoms(post), e), '/') == Back(post, e)
  {
    hide *;
    AtomsFirst(post);
    var s, rest := post[0], post[1..];
    assert post == [s] + rest;
    SegmentText(s, e);
    BackFirst(s, rest, e);
    if rest == [] {
      WordIs(s, e);
      BackNothing(e);
      SplitWhole(WordOf(s, e));
    } else {
      BackText(rest, e);
      var t := Text(Atoms(rest), e);
      TextAppend(Translate(s + ['/']), Atoms(rest), e);
      SplitFirst(WordOf(s, e), t);
      SlashJoined(WordOf(s, e), t);
    }
  }

  lemma BackNothing(e: char)
    ensures Back([], e) == []
  {
  }

  lemma SlashJoined(w: string, t: string)
    ensures w + "/" + t == w + ("/" + t) && "" + t == t
  {
  }

  lemma {:induction false} BackLength(post: seq<string>, e: char)
    ensures |Back(post, e)| == Need(post)
  {
    if |post| > 1 {
      BackLength(post[1..], e);
    }
  }

  lemma {:induction false} FrontLength(pre: seq<string>, rest: seq<string>, e: char)
    requires rest != []
    ensures Need(pre + rest) == |Front(pre, e)| + Need(rest)
  {
    if pre == [] {
      assert pre + rest == rest;
    } else {
      assert (pre + rest)[1..] == pre[1..] + rest;
      FrontLength(pre[1..], rest, e);
    }
  }

  // ---------------------------------------------------------------------------------------------------------
  // Characters other than line terminators. A segment of the pattern needs its own in the segment it matches.

  function Weight(s: string): nat {
    if s == "" then 0
    else (if s[0] == '*' || s[0] == '?' || LineEnd(s[0]) then 0 else 1) + Weight(s[1..])
  }

  function Load(w: string): nat {
    if w == "" then 0 else (if LineEnd(w[0]) then 0 else 1) + Load(w[1..])
  }

  lemma {:induction false} LoadAppend(a: string, b: string)
    ensures Load(a + b) == Load(a) + Load(b)
  {
    if a == "" {
      assert a + b == b;
    } else {
      assert (a + b)[1..] == a[1..] + b;
      LoadAppend(a[1..], b);
    }
  }

  lemma {:induction false} NoLoad(w: string)
    ensures Load(w) == 0 && w != "" ==> !Plain(w)
  {
  }

  lemma {:induction false} WildLoad(s: string, w: string)
    requires Wild(s, w)
    ensures Load(w) >= Weight(s)
    decreases |s| + |w|
  {
    if s != "" {
      if s[0] == '*' {
        if Wild(s[1..], w) { WildLoad(s[1..], w); } else { WildLoad(s, w[1..]); }
      } else {
        WildLoad(s[1..], w[1..]);
      }
    }
  }

  lemma FirstLoad(s: string, e: char)
    requires s != "" && s != "**" && '/' !in s && LineEnd(e)
    ensures
      var (a, n) := FirstAtom(s);
      Load(Pick(a, e)) + Weight(s[n..]) == Weight(s)
  {
    var (a, n) := FirstAtom(s);
    var w := Pick(a, e);
    if w != "" {
      assert w[1..] == "";
    }
  }

  lemma {:induction false} WordLoad(s: string, e: char)
    requires '/' !in s && LineEnd(e)
    ensures Load(WordOf(s, e)) == Weight(s)
    decreases |s|
  {
    if s == "**" {
      StarsTakeSlash("");
      assert "**"[1..] == "*" && "*"[1..] == "" && [Deep][1..] == [];
    } else if s != "" {
      var (a, n) := FirstAtom(s);
      FirstInSegment(s, "");
      WordLoad(s[n..], e);
      FirstLoad(s, e);
      hide FirstAtom, Weight, Load, Pick;
      TextOne(a, Translate(s[n..]), e);
      LoadAppend(Pick(a, e), WordOf(s[n..], e));
    }
  }

  function Weights(ps: seq<string>): nat {
    if ps == [] then 0 else Weight(ps[0]) + Weights(ps[1..])
  }

  function Loads(ts: seq<string>): nat {
    if ts == [] then 0 else Load(ts[0]) + Loads(ts[1..])
  }

  lemma StarsWeigh()
    ensures Weight("**") == 0
  {
    assert "**"[1..] == "*" && "*"[1..] == "";
  }

  lemma {:induction false} MatchLoads(ps: seq<string>, ts: seq<string>)
    requires SegmentsMatch(ps, ts)
    ensures Loads(ts) >= Weights(ps)
    decreases |ps| + |ts|
  {
    if ps != [] {
      if ps[0] == "**" {
        StarsWeigh();
        if |ps| > 1 {
          if SegmentsMatch(ps[1..], ts) { MatchLoads(ps[1..], ts); } else { MatchLoads(ps, ts[1..]); }
        }
      } else {
        WildLoad(ps[0], ts[0]);
        MatchLoads(ps[1..], ts[1..]);
      }
    }
  }

  lemma {:induction false} LoadsAppend(a: seq<string>, b: seq<string>)
    ensures Loads(a + b) == Loads(a) + Loads(b)
  {
    if a == [] {
      assert a + b == b;
    } else {
      assert (a + b)[1..] == a[1..] + b;
      LoadsAppend(a[1..], b);
    }
  }

  lemma {:induction false} WeightsAppend(a: seq<string>, b: seq<string>)
    ensures Weights(a + b) == Weights(a) + Weights(b)
  {
    if a == [] {
      assert a + b == b;
    } else {
      assert (a + b)[1..] == a[1..] + b;
      WeightsAppend(a[1..], b);
    }
  }

  lemma LoadsOne(w: string, rest: seq<string>)
    ensures Loads([w] + rest) == Load(w) + Loads(rest)
  {
    assert ([w] + rest)[1..] == rest;
  }

  lemma {:induction false} FrontLoads(pre: seq<string>, e: char)
    requires Slashless(pre) && LineEnd(e)
    ensures Loads(Front(pre, e)) == Weights(pre)
  {
    if pre != [] {
      assert pre[0] in pre && forall s :: s in pre[1..] ==> s in pre;
      FrontLoads(pre[1..], e);
      WordLoad(pre[0], e);
      StarsWeigh();
      LoadsOne(WordOf(pre[0], e), Front(pre[1..], e));
      assert [] + Front(pre[1..], e) == Front(pre[1..], e);
    }
  }

  lemma {:induction false} BackLoads(post: seq<string>, e: char)
    requires Slashless(post) && LineEnd(e)
    ensures Loads(Back(post, e)) == Weights(post)
  {
    if post != [] {
      assert post[0] in post && forall s :: s in post[1..] ==> s in post;
      WordLoad(post[0], e);
      StarsWeigh();
      if |post| > 1 {
        BackLoads(post[1..], e);
        LoadsOne(WordOf(post[0], e), Back(post[1..], e));
        assert [] + Back(post[1..], e) == Back(post[1..], e);
      } else {
        LoadsOne(WordOf(post[0], e), []);
      }
    }
  }

  lemma {:induction false} EmptyWord(s: string, e: char)
    requires '/' !in s && WordOf(s, e) == ""
    ensures EvenStars(s)
    decreases |s|
  {
    if s != "" && s != "**" {
      var (a, n) := FirstAtom(s);
      FirstInSegment(s, "");
      TextOne(a, Translate(s[n..]), e);
      EmptyWord(s[n..], e);
    }
  }

  /** A closed segment has an empty word only if it is empty. */
  lemma ClosedWord(s: string, e: char)
    requires '/' !in s && !Open(s)
    ensures WordOf(s, e) == "" <==> s == ""
  {
    if s != "" && WordOf(s, e) == "" {
      EmptyWord(s, e);
      EvenStarsOpen(s);
    }
  }

  // ---------------------------------------------------------------------------------------------------------
  // One segment too many: a `.*` inside a segment took a slash.

  lemma MatchStars(ps: seq<string>, ts: seq<string>)
    requires ps != []
    ensures SegmentsMatch(["**"] + ps, ts)
            <==> SegmentsMatch(ps, ts) || (ts != [] && Plain(ts[0]) && SegmentsMatch(["**"] + ps, ts[1..]))
  {
    assert (["**"] + ps)[1..] == ps;
  }

  lemma MatchLastStars(ts: seq<string>)
    ensures SegmentsMatch(["**"], ts) ==> ts != [] && Plain(ts[0])
  {
    if ts != [] {
      assert ts[0] in ts;
    }
  }

  lemma MatchSegment(s: string, ps: seq<string>, ts: seq<string>)
    requires s != "**"
    ensures SegmentsMatch([s] + ps, ts) <==> ts != [] && Wild(s, ts[0]) && SegmentsMatch(ps, ts[1..])
  {
    assert ([s] + ps)[1..] == ps;
  }

  lemma MatchNothing(ts: seq<string>)
    ensures SegmentsMatch([], ts) <==> ts == []
  {
  }

  /** With no segment to spare a `**` takes none. */
  lemma TakesNone(ps: seq<string>, ts: seq<string>)
    requires ps != [] && |ts| <= Need(ps)
    ensures SegmentsMatch(["**"] + ps, ts) ==> SegmentsMatch(ps, ts)
  {
    MatchStars(ps, ts);
    if ts != [] && SegmentsMatch(["**"] + ps, ts[1..]) {
      MatchNeeds(["**"] + ps, ts[1..]);
      NeedFirst("**", ps);
    }
  }

  lemma BackFirst(s: string, rest: seq<string>, e: char)
    ensures Back([s] + rest, e)
            == if s == "**" && rest != [] then Back(rest, e) else [WordOf(s, e)] + Back(rest, e)
  {
    assert ([s] + rest)[1..] == rest;
  }

  /** A segment of line terminators too many is taken by nothing that follows. */
  lemma {:induction false} NothingTakes(x: string, post: seq<string>, e: char)
    requires x != "" && Load(x) == 0
    requires Slashless(post) && Closed(post) && LineEnd(e)
    ensures !SegmentsMatch(post, [x] + Back(post, e))
    decreases |post|
  {
    var ts := [x] + Back(post, e);
    if post != [] {
      var s, rest := post[0], post[1..];
      assert post == [s] + rest && s in post && forall r :: r in rest ==> r in post;
      BackFirst(s, rest, e);
      NoLoad(x);
      MatchNothing(ts);
      if rest == [] {
        hide *;
        assert ts[0] == x;
        if s == "**" {
          MatchLastStars(ts);
          assert [s] + [] == ["**"];
        } else {
          MatchSegment(s, [], ts);
          MatchNothing(ts[1..]);
        }
      } else {
        ClosedFirst(s, rest);
        WordLoad(s, e);
        if s != "**" { ClosedWord(s, e); }
        WildEmpty(x);
        hide *;
        assert ts[0] == x && ts[1..] == Back(post, e);
        if s == "**" {
          NothingTakes(x, rest, e);
          MatchStars(rest, ts);
        } else {
          MatchSegment(s, rest, ts);
          if Wild(s, x) {
            WildLoad(s, x);
            NothingTakes(WordOf(s, e), rest, e);
          }
        }
      }
    } else {
      MatchNothing(ts);
    }
  }

  lemma ClosedFirst(s: string, rest: seq<string>)
    requires rest != [] && Closed([s] + rest)
    ensures Closed(rest) && (s == "**" || !Open(s))
  {
    NeedFirst(s, rest);
  }

  lemma WildEmpty(x: string)
    ensures Wild("", x) <==> x == ""
  {
  }

  /** The path of `pre + [s] + post` in which the word of `s` is cut into `u` and `v`. */
  function Crossed(pre: seq<string>, post: seq<string>, u: string, v: string, e: char): seq<string> {
    Front(pre, e) + ([u, v] + Back(post, e))
  }

  /** What is known of the pieces: when `u` alone matches `s`, then `v` is nothing but line terminators. */
  predicate Staged(pre: seq<string>, s: string, post: seq<string>, u: string, v: string, e: char) {
    && LineEnd(e) && s != "**"
    && Slashless(pre) && ClosedFront(pre) && Slashless(post) && Closed(post)
    && (Wild(s, u) ==> post == [] || (v != "" && Load(v) == 0))
  }

  lemma StagedRest(pre: seq<string>, s: string, post: seq<string>, u: string, v: string, e: char)
    requires Staged(pre, s, post, u, v, e) && pre != []
    ensures Staged(pre[1..], s, post, u, v, e)
    ensures '/' !in pre[0] && (pre[0] == "**" || !Open(pre[0]))
  {
    assert pre[0] in pre && forall x :: x in pre[1..] ==> x in pre;
  }

  lemma CrossedFirst(pre: seq<string>, post: seq<string>, u: string, v: string, e: char)
    requires pre != []
    ensures Crossed(pre, post, u, v, e)
            == if pre[0] == "**" then Crossed(pre[1..], post, u, v, e)
               else [WordOf(pre[0], e)] + Crossed(pre[1..], post, u, v, e)
    ensures |Crossed(pre[1..], post, u, v, e)| >= 2
  {
    var tail := [u, v] + Back(post, e);
    if pre[0] == "**" {
      assert [] + Front(pre[1..], e) == Front(pre[1..], e);
    } else {
      assert [WordOf(pre[0], e)] + Front(pre[1..], e) + tail == [WordOf(pre[0], e)] + (Front(pre[1..], e) + tail);
    }
  }

  lemma CrossedLength(pre: seq<string>, s: string, post: seq<string>, u: string, v: string, e: char)
    ensures s != "**" ==> |Crossed(pre, post, u, v, e)| == Need(pre + ([s] + post)) + 1
  {
    FrontLength(pre, [s] + post, e);
    BackLength(post, e);
    if post != [] {
      NeedFirst(s, post);
    } else {
      assert [s] + post == [s];
    }
  }

  lemma Rest(pre: seq<string>, tail: seq<string>)
    requires pre != []
    ensures pre + tail == [pre[0]] + (pre[1..] + tail)
  {
  }

  /** Without segments in front. */
  lemma CrossedHere(s: string, post: seq<string>, u: string, v: string, e: char)
    requires Staged([], s, post, u, v, e)
    ensures !SegmentsMatch([s] + post, Crossed([], post, u, v, e))
  {
    var ts := Crossed([], post, u, v, e);
    MatchSegment(s, post, ts);
    assert ts == [u, v] + Back(post, e) && ts[0] == u && ts[1..] == [v] + Back(post, e);
    hide SegmentsMatch, Wild, Crossed;
    if Wild(s, u) {
      if post == [] {
        MatchNothing(ts[1..]);
      } else {
        NothingTakes(v, post, e);
      }
    }
  }

  /** One path segment ahead, in front of an empty segment that has to match `u`. */
  lemma {:induction false} AheadBlocked(
    pre: seq<string>, s: string, post: seq<string>, u: string, v: string, e: char)
    requires Staged(pre, s, post, u, v, e) && pre != [] && pre[|pre| - 1] == "" && u != ""
    ensures !SegmentsMatch(pre + ([s] + post), Crossed(pre, post, u, v, e)[1..])
    decreases |pre|
  {
    var rest := [s] + post;
    var ts := Crossed(pre, post, u, v, e)[1..];
    var later := Crossed(pre[1..], post, u, v, e);
    StagedRest(pre, s, post, u, v, e);
    CrossedFirst(pre, post, u, v, e);
    CrossedLength(pre, s, post, u, v, e);
    Rest(pre, rest);
    if |pre| == 1 {
      assert later == [u, v] + Back(post, e);
      WildEmpty(u);
      hide *;
      MatchSegment("", pre[1..] + rest, ts);
      assert ts == later && ts[0] == u;
    } else {
      hide *;
      assert pre[1..][|pre| - 2] == "";
      AheadBlocked(pre[1..], s, post, u, v, e);
      if pre[0] == "**" {
        NeedFirst("**", pre[1..] + rest);
        TakesNone(pre[1..] + rest, ts);
      } else {
        assert ts == later;
        MatchSegment(pre[0], pre[1..] + rest, ts);
      }
    }
  }

  /** One path segment ahead, the first one being empty: then so are all, up to `u`. */
  lemma {:induction false} AheadEmpty(
    pre: seq<string>, s: string, post: seq<string>, u: string, v: string, e: char)
    requires Staged(pre, s, post, u, v, e) && Crossed(pre, post, u, v, e)[0] == ""
    requires u != "" || (pre != [] && pre[|pre| - 1] != "" && pre[|pre| - 1] != "**")
    ensures !SegmentsMatch(pre + ([s] + post), Crossed(pre, post, u, v, e)[1..])
    decreases |pre|
  {
    var rest := [s] + post;
    if pre != [] {
      var ts := Crossed(pre, post, u, v, e)[1..];
      var later := Crossed(pre[1..], post, u, v, e);
      StagedRest(pre, s, post, u, v, e);
      CrossedFirst(pre, post, u, v, e);
      CrossedLength(pre, s, post, u, v, e);
      Rest(pre, rest);
      assert |pre| > 1 ==> pre[1..][|pre| - 2] == pre[|pre| - 1];
      if pre[0] == "**" {
        hide *;
        AheadEmpty(pre[1..], s, post, u, v, e);
        NeedFirst("**", pre[1..] + rest);
        TakesNone(pre[1..] + rest, ts);
      } else {
        ClosedWord(pre[0], e);
        hide *;
        assert pre[0] == "" && ts == later;
        MatchSegment("", pre[1..] + rest, ts);
        WildEmpty(ts[0]);
        if ts[0] == "" {
          AheadEmpty(pre[1..], s, post, u, v, e);
        }
      }
    }
  }

  lemma CrossedLoads(pre: seq<string>, s: string, post: seq<string>, u: string, v: string, e: char)
    requires Staged(pre, s, post, u, v, e) && Load(u) + Load(v) == Weight(s)
    ensures Loads(Crossed(pre, post, u, v, e)) == Weights(pre + ([s] + post))
  {
    FrontLoads(pre, e);
    BackLoads(post, e);
    LoadsAppend(Front(pre, e), [u, v] + Back(post, e));
    assert [u, v] + Back(post, e) == [u] + ([v] + Back(post, e));
    LoadsOne(u, [v] + Back(post, e));
    LoadsOne(v, Back(post, e));
    WeightsAppend(pre, [s] + post);
    assert ([s] + post)[1..] == post;
  }

  /** An empty segment in front of `s` cannot match `u`. */
  predicate Blocked(pre: seq<string>, u: string) {
    pre != [] && pre[|pre| - 1] == "" && u != ""
  }

  /** No character to spare, and a `**` or an empty segment in front of `s` cannot take `u`. */
  predicate Tight(pre: seq<string>, s: string, u: string, v: string) {
    && Load(u) + Load(v) == Weight(s)
    && (pre != [] && pre[|pre| - 1] == "" ==> u != "")
    && (pre != [] && pre[|pre| - 1] == "**" ==> !Plain(u) || Load(u) != 0)
  }

  lemma TightRest(pre: seq<string>, s: string, u: string, v: string)
    requires pre != []
    ensures |pre| > 1 && Blocked(pre, u) ==> Blocked(pre[1..], u)
    ensures Tight(pre, s, u, v) ==> Tight(pre[1..], s, u, v) && Load(u) + Load(v) == Weight(s)
    ensures Tight(pre, s, u, v) ==>
      u != "" || (pre[|pre| - 1] != "" && pre[|pre| - 1] != "**")
    ensures Blocked(pre, u) ==> pre[|pre| - 1] == "" && u != ""
    ensures Tight(pre, s, u, v) && pre == ["**"] ==> !Plain(u) || Load(u) != 0
    ensures |pre| > 1 ==> pre[1..][|pre| - 2] == pre[|pre| - 1]
  {
  }

  /** The `**` in front takes one: then the rest is one segment ahead. */
  lemma StarsTakeFirst(pre: seq<string>, s: string, post: seq<string>, u: string, v: string, e: char)
    requires Staged(pre, s, post, u, v, e) && pre != [] && pre[0] == "**"
    requires Blocked(pre, u) || Tight(pre, s, u, v)
    requires Plain(Crossed(pre[1..], post, u, v, e)[0])
    ensures !SegmentsMatch(pre[1..] + ([s] + post), Crossed(pre[1..], post, u, v, e)[1..])
  {
    var rest := pre[1..] + ([s] + post);
    var ts := Crossed(pre[1..], post, u, v, e);
    StagedRest(pre, s, post, u, v, e);
    TightRest(pre, s, u, v);
    if SegmentsMatch(rest, ts[1..]) {
      if Blocked(pre, u) {
        hide *;
        AheadBlocked(pre[1..], s, post, u, v, e);
      } else {
        CrossedLoads(pre[1..], s, post, u, v, e);
        NoLoad(ts[0]);
        CrossedHead(pre[1..], post, u, v, e);
        hide *;
        MatchLoads(rest, ts[1..]);
        LoadsOne(ts[0], ts[1..]);
        assert ts == [ts[0]] + ts[1..];
        assert Load(ts[0]) == 0;
        if |pre| > 1 {
          AheadEmpty(pre[1..], s, post, u, v, e);
        }
      }
    }
  }

  lemma CrossedHead(pre: seq<string>, post: seq<string>, u: string, v: string, e: char)
    ensures pre == [] ==> Crossed(pre, post, u, v, e)[0] == u
  {
  }

  /** The segment matcher refuses the path with one segment too many. */
  lemma {:induction false} CrossedRefused(
    pre: seq<string>, s: string, post: seq<string>, u: string, v: string, e: char)
    requires Staged(pre, s, post, u, v, e)
    requires pre == [] || Blocked(pre, u) || Tight(pre, s, u, v)
    ensures !SegmentsMatch(pre + ([s] + post), Crossed(pre, post, u, v, e))
    decreases |pre|
  {
    if pre == [] {
      CrossedHere(s, post, u, v, e);
      assert pre + ([s] + post) == [s] + post;
    } else {
      var rest := pre[1..] + ([s] + post);
      var ts := Crossed(pre, post, u, v, e);
      StagedRest(pre, s, post, u, v, e);
      CrossedFirst(pre, post, u, v, e);
      CrossedLength(pre, s, post, u, v, e);
      Rest(pre, [s] + post);
      TightRest(pre, s, u, v);
      StagedNotStars(pre, s, post, u, v, e);
      hide *;
      CrossedRefused(pre[1..], s, post, u, v, e);
      if pre[0] == "**" {
        MatchStars(rest, ts);
        NeedFirst("**", rest);
        TakesNone(rest, ts[1..]);
        if Plain(ts[0]) {
          StarsTakeFirst(pre, s, post, u, v, e);
        }
      } else {
        MatchSegment(pre[0], rest, ts);
        assert ts[1..] == Crossed(pre[1..], post, u, v, e);
      }
    }
  }

  lemma StagedNotStars(pre: seq<string>, s: string, post: seq<string>, u: string, v: string, e: char)
    requires Staged(pre, s, post, u, v, e)
    ensures s != "**"
  {
  }

  // ---------------------------------------------------------------------------------------------------------
  // Where the path is cut.

  /** The atoms around a pair of stars inside a segment. */
  lemma {:induction false} CutAtPair(s: string, e: char) returns (a: seq<Atom>, b: seq<Atom>)
    requires HasDoubleStar(s) && '/' !in s
    ensures Translate(s) == a + ([Deep] + b)
    ensures Text(a, e) == "" <==> DoubleStarAt(s, 0)
    ensures !Open(s) ==> Text(b, e) != ""
    decreases |s|
  {
    FirstInPair(s);
    hide *;
    if DoubleStarAt(s, 0) {
      a, b := [], Translate(s[2..]);
      NoStars(s, e);
      if !Open(s) {
        PairTextless(s, e);
      }
    } else {
      var c := FirstAtom(s).0;
      FirstNotStars(s, e);
      var a';
      a', b := CutAtPair(s[1..], e);
      a := [c] + a';
      TextOne(c, a', e);
      Joined([c], a', [Deep] + b);
    }
  }

  lemma FirstNotStars(s: string, e: char)
    requires s != "" && !DoubleStarAt(s, 0) && '/' !in s
    ensures Translate(s) == [FirstAtom(s).0] + Translate(s[1..]) && Pick(FirstAtom(s).0, e) != ""
  {
    FirstInSegment(s, "");
  }

  lemma PairTextless(s: string, e: char)
    requires DoubleStarAt(s, 0) && '/' !in s && !Open(s)
    ensures Text(Translate(s[2..]), e) != ""
  {
    if Text(Translate(s[2..]), e) == "" {
      EmptyWord(s[2..], e);
      assert EvenStars(s);
      EvenStarsOpen(s);
    }
  }

  lemma FirstInPair(s: string)
    requires HasDoubleStar(s) && '/' !in s
    ensures DoubleStarAt(s, 0) ==> Translate(s) == [] + ([Deep] + Translate(s[2..]))
    ensures !DoubleStarAt(s, 0) ==> HasDoubleStar(s[1..]) && (Open(s) <==> Open(s[1..]))
  {
    var i: nat :| i < |s| && DoubleStarAt(s, i);
    if DoubleStarAt(s, 0) {
      assert FirstAtom(s) == (Deep, 2);
    } else {
      assert DoubleStarAt(s[1..], i - 1);
    }
  }

  lemma Joined(a: seq<Atom>, b: seq<Atom>, c: seq<Atom>)
    ensures a + (b + c) == a + b + c
  {
  }

  lemma CoreStep(s: string)
    requires '/' !in s && DoubleStarAt(s, 0)
    ensures |s| >= 2 && '/' !in s[2..]
    ensures Translate(s) == [Deep] + Translate(s[2..]) && Core(s) == Core(s[2..])
    ensures s[2..] != "" ==> (Open(s) <==> Open(s[2..]))
    ensures Core("") == ""
  {
    assert HasDoubleStar(s);
    FirstInPair(s);
  }

  lemma NoStars(s: string, e: char)
    ensures Translate(s) == [] + Translate(s) && Text([], e) == ""
  {
  }

  /** The pairs of stars in front have no text. */
  lemma {:induction false} CoreAtoms(s: string, e: char) returns (stars: seq<Atom>)
    requires '/' !in s
    ensures Translate(s) == stars + Translate(Core(s)) && Text(stars, e) == ""
    ensures Core(s) != "" ==> (Open(s) <==> Open(Core(s)))
    ensures '/' !in Core(s)
    decreases |s|
  {
    hide *;
    if DoubleStarAt(s, 0) {
      CoreStep(s);
      var more := CoreAtoms(s[2..], e);
      stars := [Deep] + more;
      TextOne(Deep, more, e);
      NoPick(e);
      Joined([Deep], more, Translate(Core(s[2..])));
    } else {
      stars := [];
      NoStars(s, e);
    }
  }

  lemma CoreNotEmpty(s: string)
    requires HasDoubleStar(Core(s))
    ensures Core(s) != "" && !DoubleStarAt(Core(s), 0)
  {
  }

  /** Behind a `**` segment the pair is taken from the core, so that there is text before it. */
  lemma Pieces(s: string, behindStars: bool, e: char) returns (a: seq<Atom>, b: seq<Atom>)
    requires HasDoubleStar(s) && '/' !in s
    requires behindStars ==> HasDoubleStar(Core(s))
    ensures Translate(s) == a + ([Deep] + b)
    ensures behindStars ==> Text(a, e) != ""
    ensures !Open(s) ==> Text(b, e) != ""
  {
    hide *;
    if behindStars {
      CoreNotEmpty(s);
      var stars := CoreAtoms(s, e);
      var a';
      a', b := CutAtPair(Core(s), e);
      a := stars + a';
      TextAppend(stars, a', e);
      Joined(stars, a', [Deep] + b);
    } else {
      a, b := CutAtPair(s, e);
    }
  }

  lemma PiecesLoad(s: string, a: seq<Atom>, b: seq<Atom>, e: char)
    requires '/' !in s && Translate(s) == a + ([Deep] + b) && LineEnd(e)
    ensures Load(Text(a, e)) + Load(Text(b, e)) == Weight(s)
    ensures '/' !in Text(a, e) && '/' !in Text(b, e)
  {
    WordLoad(s, e);
    SegmentAtoms(s, e);
    TextAppend(a, [Deep] + b, e);
    TextOne(Deep, b, e);
    hide *;
    assert Pick(Deep, e) + Text(b, e) == Text(b, e) by { NoPick(e); }
    LoadAppend(Text(a, e), Text(b, e));
    assert WordOf(s, e) == Text(a, e) + Text(b, e) by { WordIs(s, e); }
  }

  lemma NoPick(e: char)
    ensures Pick(Deep, e) == ""
  {
  }

  lemma WordIs(s: string, e: char)
    ensures WordOf(s, e) == Text(Translate(s), e)
  {
  }

  function FirstLiteral(s: string): Option<char> {
    if s == "" then None else if s[0] == '*' || s[0] == '?' then FirstLiteral(s[1..]) else Some(s[0])
  }

  /** A character that is not the first literal matches a segment only if there is none. */
  lemma {:induction false} OneCharacter(s: string, z: char)
    requires (Wild(s, [z]) || Wild(s, "")) && FirstLiteral(s) != Some(z)
    ensures Weight(s) == 0
    decreases |s|
  {
    if s != "" {
      assert [z][1..] == "";
      OneCharacter(s[1..], z);
    }
  }

  function Other(s: string): (z: char)
    ensures z != '/' && !LineEnd(z) && FirstLiteral(s) != Some(z)
  {
    if FirstLiteral(s) == Some('x') then 'y' else 'x'
  }

  /** The parts of the path around the slash that `.*` takes. */
  lemma PiecesStaged(
    pre: seq<string>, s: string, post: seq<string>, a: seq<Atom>, b: seq<Atom>, e: char) returns (d: string)
    requires LineEnd(e) && s != "**" && '/' !in s
    requires Slashless(pre) && ClosedFront(pre) && Slashless(post) && Closed(post)
    requires Translate(s) == a + ([Deep] + b) && (post != [] ==> Text(b, e) != "")
    requires pre != [] && pre[|pre| - 1] == "**" ==> Text(a, e) != ""
    ensures Plain(d + "/") && '/' !in d
    ensures
      var u, v := Text(a, e) + d, Text(b, e);
      Staged(pre, s, post, u, v, e) && (Blocked(pre, u) || Tight(pre, s, u, v))
  {
    PiecesLoad(s, a, b, e);
    var left, v := Text(a, e), Text(b, e);
    NoLoad(left);
    hide Text, Translate;
    if left == "" && pre != [] && pre[|pre| - 1] == "" {
      var z := Other(s);
      d := [z];
      assert left + d == [z];
      if Wild(s, [z]) {
        OneCharacter(s, z);
      }
    } else {
      d := "";
      assert left + d == left;
      if Wild(s, left) {
        WildLoad(s, left);
      }
    }
  }

  /** The atoms and the text behind the cut. */
  function AtomsBehind(b: seq<Atom>, post: seq<string>): seq<Atom> {
    if post == [] then b else b + ([Lit('/')] + Atoms(post))
  }

  lemma SplitBehind(b: seq<Atom>, post: seq<string>, e: char)
    requires e != '/' && '/' !in Text(b, e) && Slashless(post) && Closed(post)
    ensures Split(Text(AtomsBehind(b, post), e), '/') == [Text(b, e)] + Back(post, e)
  {
    hide Text, Split, Atoms, Closed, Slashless;
    if post == [] {
      SplitWhole(Text(b, e));
      assert [Text(b, e)] + [] == [Text(b, e)];
    } else {
      TextAppend(b, [Lit('/')] + Atoms(post), e);
      TextOne(Lit('/'), Atoms(post), e);
      BackText(post, e);
      SplitFirst(Text(b, e), Text(Atoms(post), e));
      assert Pick(Lit('/'), e) == "/";
    }
  }

  /** A segment with text behind it is followed by its slash. */
  lemma AtomsHere(s: string, post: seq<string>)
    requires '/' !in s && (post != [] ==> !Open(s))
    ensures Atoms([s] + post) == AtomsBehind(Translate(s), post)
  {
    if post != [] {
      ClosedAtoms(s);
      assert ([s] + post)[1..] == post;
      Joined(Translate(s), [Lit('/')], Atoms(post));
    } else {
      assert [s] + post == [s];
    }
  }

  lemma BehindJoined(a: seq<Atom>, b: seq<Atom>, post: seq<string>)
    ensures AtomsBehind(a + ([Deep] + b), post) == a + ([Deep] + AtomsBehind(b, post))
  {
    if post != [] {
      var tail := [Lit('/')] + Atoms(post);
      Joined([Deep], b, tail);
      Joined(a, [Deep] + b, tail);
    }
  }

  /** The pattern's segments around one of them. */
  predicate Around(p: string, pre: seq<string>, s: string, post: seq<string>) {
    Split(p, '/') == pre + ([s] + post) && Closed(Split(p, '/'))
  }

  lemma {:induction false} ClosedParts(pre: seq<string>, rest: seq<string>)
    requires Closed(pre + rest) && rest != []
    ensures ClosedFront(pre) && Closed(rest)
    decreases |pre|
  {
    if pre == [] {
      assert pre + rest == rest;
    } else {
      assert (pre + rest)[1..] == pre[1..] + rest && pre == [pre[0]] + pre[1..];
      ClosedParts(pre[1..], rest);
    }
  }

  lemma AroundParts(p: string, pre: seq<string>, s: string, post: seq<string>)
    requires Around(p, pre, s, post)
    ensures Slashless(pre) && '/' !in s && Slashless(post) && ClosedFront(pre) && Closed(post)
    ensures post != [] && s != "**" ==> !Open(s)
  {
    ClosedParts(pre, [s] + post);
    assert forall x :: x in pre || x == s || x in post ==> x in Split(p, '/');
    if post != [] {
      NeedFirst(s, post);
    }
  }

  lemma PatternAround(p: string, pre: seq<string>, s: string, post: seq<string>)
    requires Around(p, pre, s, post) && s != "**"
    ensures Translate(p) == FrontAtoms(pre) + AtomsBehind(Translate(s), post)
  {
    AroundParts(p, pre, s, post);
    hide Split, Translate, Atoms, Closed;
    PatternAtoms(p);
    AtomsAppend(pre, [s] + post);
    AtomsHere(s, post);
  }

  lemma SplitCrossed(pre: seq<string>, post: seq<string>, a: seq<Atom>, b: seq<Atom>, d: string, e: char)
    requires e != '/' && '/' !in Text(a, e) && '/' !in Text(b, e) && '/' !in d
    requires Slashless(pre) && ClosedFront(pre) && Slashless(post) && Closed(post)
    ensures
      var t := Text(FrontAtoms(pre) + a, e) + (d + "/" + Text(AtomsBehind(b, post), e));
      Split(t, '/') == Crossed(pre, post, Text(a, e) + d, Text(b, e), e)
  {
    var u, tail := Text(a, e) + d, Text(AtomsBehind(b, post), e);
    TextAppend(FrontAtoms(pre), a, e);
    FrontText(pre, e);
    CrossedIs(pre, post, u, Text(b, e), e);
    hide *;
    SplitBehind(b, post, e);
    SplitFirst(u, tail);
    SplitLines(Front(pre, e), u + ("/" + tail));
    TextJoined(Lines(Front(pre, e)), Text(a, e), d, tail);
    TwoInFront(u, Text(b, e), Back(post, e));
  }

  lemma TextJoined(front: string, left: string, d: string, tail: string)
    ensures front + (left + d + ("/" + tail)) == front + left + (d + "/" + tail)
  {
    assert left + d + ("/" + tail) == left + (d + "/" + tail);
  }

  lemma TwoInFront(u: string, v: string, rest: seq<string>)
    ensures [u] + ([v] + rest) == [u, v] + rest
  {
  }

  lemma CrossedIs(pre: seq<string>, post: seq<string>, u: string, v: string, e: char)
    ensures Crossed(pre, post, u, v, e) == Front(pre, e) + ([u, v] + Back(post, e))
  {
  }

  // A `.*` inside a segment takes a slash, and the path has a segment more than the matcher can do with.
  lemma CrossingWitness(p: string, pre: seq<string>, s: string, post: seq<string>) returns (t: string)
    requires Around(p, pre, s, post) && s != "**" && HasDoubleStar(s)
    requires pre != [] && pre[|pre| - 1] == "**" ==> HasDoubleStar(Core(s))
    ensures Accepts(Translate(p), t) && !SegmentsMatch(Split(p, '/'), Split(t, '/'))
  {
    var e := '\n';
    AroundParts(p, pre, s, post);
    AroundIs(p, pre, s, post);
    hide *;
    var a, b := Pieces(s, pre != [] && pre[|pre| - 1] == "**", e);
    NewlineEnds();
    var d := PiecesStaged(pre, s, post, a, b, e);
    PiecesLoad(s, a, b, e);
    var tail := AtomsBehind(b, post);
    t := Text(FrontAtoms(pre) + a, e) + (d + "/" + Text(tail, e));
    PatternAround(p, pre, s, post);
    BehindJoined(a, b, post);
    Joined(FrontAtoms(pre), a, [Deep] + tail);
    CrossingAccepted(FrontAtoms(pre) + a, tail, d + "/", e);
    SplitCrossed(pre, post, a, b, d, e);
    CrossedRefused(pre, s, post, Text(a, e) + d, Text(b, e), e);
  }

  lemma AroundIs(p: string, pre: seq<string>, s: string, post: seq<string>)
    requires Around(p, pre, s, post)
    ensures Split(p, '/') == pre + ([s] + post)
  {
  }

  lemma NewlineEnds()
    ensures LineEnd('\n') && LineEnd('\r')
  {
  }

  // ---------------------------------------------------------------------------------------------------------
  // Pairs of stars in front of a segment that no star follows: `.*` does not take the line terminator that the segment
  // matcher lets them take.

  lemma WordFirst(s: string, e: char)
    requires s != "" && s != "**" && '/' !in s
    ensures WordOf(s, e) == Pick(FirstAtom(s).0, e) + WordOf(s[FirstAtom(s).1..], e)
    ensures FirstAtom(s).1 == if DoubleStarAt(s, 0) then 2 else 1
  {
    FirstInSegment(s, "");
    TextOne(FirstAtom(s).0, Translate(s[FirstAtom(s).1..]), e);
  }

  lemma StarsWord(e: char)
    ensures WordOf("**", e) == ""
  {
    StarsTakeSlash("");
    TextOne(Deep, [], e);
    assert [Deep] + [] == [Deep];
  }

  lemma {:induction false} WildWord(s: string, e: char)
    requires '/' !in s
    ensures Wild(s, WordOf(s, e))
    decreases |s|
  {
    if s == "**" {
      StarsWord(e);
      assert "**"[1..] == "*" && "*"[1..] == "";
    } else if s != "" {
      WordFirst(s, e);
      var n := FirstAtom(s).1;
      var rest := WordOf(s[n..], e);
      WildWord(s[n..], e);
      WildFirst(s, rest, e);
    }
  }

  lemma WildFirst(s: string, rest: string, e: char)
    requires s != ""
    requires var n := FirstAtom(s).1; n == (if DoubleStarAt(s, 0) then 2 else 1) && Wild(s[n..], rest)
    requires FirstAtom(s).0 != Dirs
    ensures Wild(s, Pick(FirstAtom(s).0, e) + rest)
  {
    var w := Pick(FirstAtom(s).0, e) + rest;
    if DoubleStarAt(s, 0) {
      assert w == rest && s[1..][1..] == s[2..] && Wild(s[1..], rest);
    } else {
      assert w[1..] == rest;
      assert s[0] == '*' ==> Wild(s, rest);
    }
  }

  lemma {:induction false} BackMatches(post: seq<string>, e: char)
    requires Slashless(post)
    ensures SegmentsMatch(post, Back(post, e))
  {
    if post != [] {
      var s, rest := post[0], post[1..];
      assert post == [s] + rest && s in post && forall r :: r in rest ==> r in post;
      BackFirst(s, rest, e);
      WildWord(s, e);
      StarsWord(e);
      BackMatches(rest, e);
      hide Back, WordOf, Wild;
      if s == "**" && rest != [] {
        MatchStars(rest, Back(rest, e));
      } else if s != "**" {
        MatchSegment(s, rest, [WordOf(s, e)] + Back(rest, e));
      }
    }
  }

  lemma {:induction false} FrontMatches(pre: seq<string>, rest: seq<string>, ts: seq<string>, e: char)
    requires Slashless(pre) && rest != [] && SegmentsMatch(rest, ts)
    ensures SegmentsMatch(pre + rest, Front(pre, e) + ts)
  {
    if pre == [] {
      assert pre + rest == rest && [] + ts == ts;
    } else {
      assert pre[0] in pre && forall r :: r in pre[1..] ==> r in pre;
      var later := Front(pre[1..], e) + ts;
      WildWord(pre[0], e);
      FrontMatches(pre[1..], rest, ts, e);
      Rest(pre, rest);
      hide SegmentsMatch, WordOf, Wild;
      if pre[0] == "**" {
        assert [] + Front(pre[1..], e) + ts == later;
        MatchStars(pre[1..] + rest, later);
      } else {
        assert [WordOf(pre[0], e)] + Front(pre[1..], e) + ts == [WordOf(pre[0], e)] + later;
        MatchSegment(pre[0], pre[1..] + rest, [WordOf(pre[0], e)] + later);
      }
    }
  }

  /** With no slash to spare, the first slash of the path is the first one of the expression. */
  lemma FirstSlash(x: seq<Atom>, y: seq<Atom>, w: string, t: string)
    requires Accepts(x + ([Lit('/')] + y), w + ("/" + t))
    requires '/' !in w && Slashes(t) <= LitSlashes(y)
    ensures Accepts(x, w) && Accepts(y, t)
  {
    hide Accepts;
    var s := w + ("/" + t);
    var k := AcceptsCut(x, [Lit('/')] + y, s);
    AcceptsLit('/', y, s[k..]);
    assert s[k..][0] == s[k] && s[k..][1..] == s[k + 1..];
    AcceptsSlashes(y, s[k + 1..]);
    assert forall i :: 0 <= i < |w| ==> s[i] == w[i];
    assert forall i :: 0 <= i < |t| ==> s[|w| + 1 + i] == t[i];
    assert s[..|w|] == w && s[|w| + 1..] == t;
    if k > |w| {
      var j := k - |w| - 1;
      assert t[j..][1..] == t[j + 1..] == s[k + 1..] && t == t[..j] + t[j..];
      SlashesAppend(t[..j], t[j..]);
    }
  }

  /** And `**` takes nothing. */
  lemma DirsSpare(y: seq<Atom>, t: string)
    requires Accepts([Dirs] + y, t) && Slashes(t) <= LitSlashes(y)
    ensures Accepts(y, t)
  {
    hide Accepts;
    var k := HeadCut(Dirs, y, t);
    AcceptsSlashes(y, t[k..]);
    assert t == t[..k] + t[k..];
    SlashesAppend(t[..k], t[k..]);
    NonemptyDirs(t[..k]);
    assert t[0..] == t;
  }

  lemma NonemptyDirs(w: string)
    requires Word(Dirs, w)
    ensures w == "" || Slashes(w) > 0
  {
    NoSlashes(w);
    assert w != "" ==> w[|w| - 1] in w;
  }

  /** What is refused is refused behind the words of segments in front, too. */
  lemma {:induction false} FrontRefuses(pre: seq<string>, x: seq<Atom>, r: string, e: char)
    requires !Accepts(x, r) && Slashes(r) == LitSlashes(x)
    requires Slashless(pre) && ClosedFront(pre) && e != '/'
    ensures !Accepts(FrontAtoms(pre) + x, Lines(Front(pre, e)) + r)
    ensures Slashes(Lines(Front(pre, e)) + r) == LitSlashes(FrontAtoms(pre) + x)
  {
    if pre == [] {
      assert [] + x == x && "" + r == r;
    } else {
      assert pre[0] in pre && forall s :: s in pre[1..] ==> s in pre;
      FrontRefuses(pre[1..], x, r, e);
      FrontLines(pre, e);
      OneMoreRefuses(pre[0], FrontAtoms(pre[1..]) + x, Lines(Front(pre[1..], e)) + r, e);
      hide *;
      Joined(Translate(pre[0] + ['/']), FrontAtoms(pre[1..]), x);
      FrontAtomsFirst(pre);
      TextsJoined(WordOf(pre[0], e), Lines(Front(pre[1..], e)), r);
    }
  }

  lemma FrontAtomsFirst(pre: seq<string>)
    requires pre != []
    ensures FrontAtoms(pre) == Translate(pre[0] + ['/']) + FrontAtoms(pre[1..])
  {
  }

  lemma TextsJoined(w: string, lines: string, r: string)
    ensures w + "/" + lines + r == w + ("/" + (lines + r))
  {
  }

  lemma OneMoreRefuses(s: string, y: seq<Atom>, t: string, e: char)
    requires !Accepts(y, t) && Slashes(t) == LitSlashes(y)
    requires '/' !in s && (s == "**" || !Open(s)) && e != '/'
    ensures
      var more := if s == "**" then t else WordOf(s, e) + ("/" + t);
      !Accepts(Translate(s + ['/']) + y, more) && Slashes(more) == LitSlashes(Translate(s + ['/']) + y)
  {
    SegmentSlash(s);
    LitSlashesAppend(Translate(s + ['/']), y);
    SegmentText(s, e);
    if s == "**" {
      assert Open("**");
      StarsTakeSlash("");
      if Accepts([Dirs] + y, t) {
        DirsSpare(y, t);
      }
    } else {
      ClosedAtoms(s);
      var w := WordOf(s, e);
      hide *;
      Joined(Translate(s), [Lit('/')], y);
      if Accepts(Translate(s) + ([Lit('/')] + y), w + ("/" + t)) {
        FirstSlash(Translate(s), y, w, t);
      }
      NoSlashes(w);
      SlashesAppend(w, "/" + t);
      SlashInFront(t);
    }
  }

  lemma SlashInFront(t: string)
    ensures Slashes("/" + t) == 1 + Slashes(t)
  {
    assert ("/" + t)[1..] == t;
  }

  lemma DeepSpare(x: seq<Atom>, e: char, w: string)
    requires Accepts([Deep] + x, [e] + w) && LineEnd(e)
    ensures Accepts(x, [e] + w)
  {
    var t := [e] + w;
    var k := HeadCut(Deep, x, t);
    assert t[0] == e && forall i :: 0 <= i < k ==> t[..k][i] == t[i];
    assert t[0..] == t;
  }

  /** With one more line terminator in front, every question mark and literal would have to move. */
  lemma {:induction false} Shifted(s: string, e: char)
    requires !HasDoubleStar(s) && !MeetsStar(s) && '/' !in s && FirstLiteral(s) != Some(e)
    ensures !Wild(s, [e] + WordOf(s, e))
  {
    var t := [e] + WordOf(s, e);
    assert t[1..] == WordOf(s, e);
    if s != "" {
      assert !DoubleStarAt(s, 0) && s != "**" by { assert DoubleStarAt("**", 0); }
      WordFirst(s, e);
      if s[0] == '?' {
        assert forall i: nat :: i < |s[1..]| && DoubleStarAt(s[1..], i) ==> DoubleStarAt(s, i + 1);
        Shifted(s[1..], e);
      }
    }
  }

  lemma {:induction false} StuckSegment(s: string, e: char)
    requires !HasDoubleStar(Core(s)) && !MeetsStar(Core(s)) && '/' !in s
    requires LineEnd(e) && FirstLiteral(Core(s)) != Some(e)
    ensures !Accepts(Translate(s), [e] + WordOf(s, e))
    decreases |s|
  {
    hide *;
    if DoubleStarAt(s, 0) {
      CoreStep(s);
      PairWord(s, e);
      StuckSegment(s[2..], e);
      if Accepts([Deep] + Translate(s[2..]), [e] + WordOf(s, e)) {
        DeepSpare(Translate(s[2..]), e, WordOf(s, e));
      }
    } else {
      Shifted(s, e);
      SegmentMeaning(s, [e] + WordOf(s, e));
    }
  }

  lemma PairWord(s: string, e: char)
    requires DoubleStarAt(s, 0) && '/' !in s
    ensures WordOf(s, e) == WordOf(s[2..], e)
  {
    CoreStep(s);
    TextOne(Deep, Translate(s[2..]), e);
  }

  /** The path with one line terminator more in front of the word of `s`. */
  function Stuck(s: string, post: seq<string>, e: char): string {
    [e] + WordOf(s, e) + if post == [] then "" else "/" + Text(Atoms(post), e)
  }

  lemma StuckHere(s: string, post: seq<string>, e: char)
    requires !HasDoubleStar(Core(s)) && !MeetsStar(Core(s)) && '/' !in s
    requires LineEnd(e) && FirstLiteral(Core(s)) != Some(e)
    requires Slashless(post) && Closed(post)
    ensures !Accepts(AtomsBehind(Translate(s), post), Stuck(s, post, e))
    ensures Slashes(Stuck(s, post, e)) == LitSlashes(AtomsBehind(Translate(s), post))
    ensures Split(Stuck(s, post, e), '/') == [[e] + WordOf(s, e)] + Back(post, e)
  {
    var w := [e] + WordOf(s, e);
    StuckSegment(s, e);
    SegmentAtoms(s, e);
    NoSlashes(w);
    assert '/' !in w;
    hide SegmentsMatch, Accepts, Translate, Text, Split, Atoms, Slashes;
    if post == [] {
      assert Stuck(s, post, e) == w && [w] + [] == [w];
      SplitWhole(w);
    } else {
      var t := Text(Atoms(post), e);
      BackText(post, e);
      TextSlashes(Atoms(post), e);
      SplitFirst(w, t);
      SlashesAppend(w, "/" + t);
      SlashInFront(t);
      LitSlashesAppend(Translate(s), [Lit('/')] + Atoms(post));
      LitSlashesAppend([Lit('/')], Atoms(post));
      assert LitSlashes([Lit('/')]) == 1 by { assert [Lit('/')][1..] == []; }
      if Accepts(Translate(s) + ([Lit('/')] + Atoms(post)), w + ("/" + t)) {
        FirstSlash(Translate(s), Atoms(post), w, t);
      }
    }
  }

  lemma StuckMatches(s: string, rest: seq<string>, ts: seq<string>, e: char)
    requires '/' !in s && s != "**" && DoubleStarAt(s, 0) && SegmentsMatch(rest, ts)
    ensures SegmentsMatch([s] + rest, [[e] + WordOf(s, e)] + ts)
  {
    var w := [e] + WordOf(s, e);
    WildWord(s, e);
    assert w[1..] == WordOf(s, e);
    assert Wild(s, w);
    MatchSegment(s, rest, [w] + ts);
    assert ([w] + ts)[1..] == ts;
  }

  /** The segment matcher accepts a path that the expression refuses. */
  lemma StuckWitness(p: string, pre: seq<string>, s: string, post: seq<string>) returns (t: string)
    requires Around(p, pre, s, post) && s != "**" && HasDoubleStar(s)
    requires !HasDoubleStar(Core(s)) && !MeetsStar(Core(s))
    ensures !Accepts(Translate(p), t) && SegmentsMatch(Split(p, '/'), Split(t, '/'))
  {
    var e := if FirstLiteral(Core(s)) == Some('\n') then '\r' else '\n';
    AroundParts(p, pre, s, post);
    AroundIs(p, pre, s, post);
    NewlineEnds();
    assert DoubleStarAt(s, 0);
    t := Lines(Front(pre, e)) + Stuck(s, post, e);
    hide *;
    StuckHere(s, post, e);
    PatternAround(p, pre, s, post);
    FrontRefuses(pre, AtomsBehind(Translate(s), post), Stuck(s, post, e), e);
    FrontText(pre, e);
    SplitLines(Front(pre, e), Stuck(s, post, e));
    BackMatches(post, e);
    StuckMatches(s, post, Back(post, e), e);
    FrontMatches(pre, [s] + post, [[e] + WordOf(s, e)] + Back(post, e), e);
  }

  // ---------------------------------------------------------------------------------------------------------
  // The exact condition.

  /** A segment that is not faithful, with what stands around it. */
  lemma {:induction false} UnfaithfulAt(segments: seq<string>, behindStars: bool)
    returns (pre: seq<string>, s: string, post: seq<string>)
    requires !Faithful(segments, behindStars)
    ensures segments == pre + ([s] + post) && s != "**" && HasDoubleStar(s)
    ensures (if pre == [] then behindStars else pre[|pre| - 1] == "**") ==> !Absorbed(s)
  {
    var first, rest := segments[0], segments[1..];
    if Faithful(rest, first == "**") {
      pre, s, post := [], first, rest;
    } else {
      var pre';
      pre', s, post := UnfaithfulAt(rest, first == "**");
      pre := [first] + pre';
    }
  }

  /**
   The segment reading is right for every path exactly when the pattern is faithful: each of its segments is `**`, or
   holds no `**`, or stands right behind a `**` segment and starts with pairs of stars before question marks and a star.
   */
  lemma SegmentReadingIff(p: string)
    ensures (forall t :: Accepts(Translate(p), t) <==> SegmentsMatch(Split(p, '/'), Split(t, '/')))
            <==> Faithful(Split(p, '/'), false)
  {
    if Faithful(Split(p, '/'), false) {
      forall t
        ensures Accepts(Translate(p), t) <==> SegmentsMatch(Split(p, '/'), Split(t, '/'))
      {
        FaithfulMeaning(p, t);
      }
    } else {
      var t := UnfaithfulWitness(p);
    }
  }

  /** A path that tells the two readings apart. */
  lemma UnfaithfulWitness(p: string) returns (t: string)
    requires !Faithful(Split(p, '/'), false)
    ensures Accepts(Translate(p), t) != SegmentsMatch(Split(p, '/'), Split(t, '/'))
  {
    if !Closed(Split(p, '/')) {
      t := OpenWitness(p);
    } else {
      var pre, s, post := UnfaithfulAt(Split(p, '/'), false);
      assert Around(p, pre, s, post);
      if pre != [] && pre[|pre| - 1] == "**" && !HasDoubleStar(Core(s)) {
        t := StuckWitness(p, pre, s, post);
      } else {
        t := CrossingWitness(p, pre, s, post);
      }
    }
  }
}
