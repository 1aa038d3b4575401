/**
 For which patterns the compiled expression is exactly the segment matcher, over every path: a condition on the
 pattern's text, and a path that tells the two apart for every pattern that does not meet it.
 */
module GlobExact {
  import opened Common
  import opened GlobRegex

  // ---------------------------------------------------------------------------------------------------------
  // The condition.

  /** A segment behind the pairs of stars it starts with. */
  function Core(s: string): (r: string)
    ensures !DoubleStarAt(r, 0) && |r| <= |s|
    ensures !DoubleStarAt(s, 0) ==> r == s
  {
    if DoubleStarAt(s, 0) then Core(s[2..]) else s
  }

  /** A star, with nothing but question marks in front of it. */
  predicate MeetsStar(s: string) {
    s != "" && (s[0] == '*' || (s[0] == '?' && MeetsStar(s[1..])))
  }

  /** The pairs of stars stand in front, and what they take can be left to the segments before or the star behind. */
  predicate Absorbed(s: string) {
    !HasDoubleStar(Core(s)) && MeetsStar(Core(s))
  }

  /** Every segment is `**`, holds no `**`, or stands right behind a `**` segment that makes its own `**` harmless. */
  predicate Faithful(segments: seq<string>, behindStars: bool) {
    segments != [] ==>
      && (segments[0] == "**" || !HasDoubleStar(segments[0]) || (behindStars && Absorbed(segments[0])))
      && Faithful(segments[1..], segments[0] == "**")
  }

  // ---------------------------------------------------------------------------------------------------------
  // It suffices: such a pattern means what it means without those pairs of stars.

  function Trim(s: string, behindStars: bool): string {
    if behindStars && s != "**" then Core(s) else s
  }

  function Trims(segments: seq<string>, behindStars: bool): (r: seq<string>)
    ensures |r| == |segments|
  {
    if segments == [] then [] else [Trim(segments[0], behindStars)] + Trims(segments[1..], segments[0] == "**")
  }

  function Reduced(p: string, behindStars: bool): string {
    if '/' in p then
      var f := IndexOf(p, '/').value;
      Trim(p[..f], behindStars) + ("/" + Reduced(p[f + 1..], p[..f] == "**"))
    else Trim(p, behindStars)
  }

  lemma TrimSlashless(s: string, behindStars: bool)
    requires '/' !in s
    ensures '/' !in Trim(s, behindStars)
  {
    CoreSlashless(s);
  }

  lemma {:induction false} CoreSlashless(s: string)
    requires '/' !in s
    ensures '/' !in Core(s)
    decreases |s|
  {
    if DoubleStarAt(s, 0) {
      CoreSlashless(s[2..]);
    }
  }

  lemma SplitFirst(w: string, q: string)
    requires '/' !in w
    ensures Split(w + ("/" + q), '/') == [w] + Split(q, '/')
  {
    var s := w + ("/" + q);
    assert s[..|w|] == w && s[|w| + 1..] == q && s[|w|] == '/';
    SplitAt(s, |w|);
  }

  lemma {:induction false} ReducedSplit(p: string, behindStars: bool)
    ensures Split(Reduced(p, behindStars), '/') == Trims(Split(p, '/'), behindStars)
    decreases |p|
  {
    if '/' in p {
      var f := IndexOf(p, '/').value;
      SplitAt(p, f);
      hide Trim, Split;
      ReducedSplit(p[f + 1..], p[..f] == "**");
      TrimSlashless(p[..f], behindStars);
      SplitFirst(Trim(p[..f], behindStars), Reduced(p[f + 1..], p[..f] == "**"));
    } else {
      SplitWhole(p);
      TrimSlashless(p, behindStars);
      SplitWhole(Trim(p, behindStars));
    }
  }

  lemma {:induction false} TrimsWhole(segments: seq<string>, behindStars: bool)
    requires Faithful(segments, behindStars)
    ensures forall s :: s in Trims(segments, behindStars) ==> s == "**" || !HasDoubleStar(s)
  {
    if segments != [] {
      TrimsWhole(segments[1..], segments[0] == "**");
      if !HasDoubleStar(segments[0]) {
        NoPairInFront(segments[0]);
      }
    }
  }

  lemma NoPairInFront(s: string)
    requires !HasDoubleStar(s)
    ensures Core(s) == s
  {
  }

  /** What a star takes can be taken away in front of a star. */
  lemma {:induction false} WildAbsorbs(u: string, c: char, t: string)
    requires MeetsStar(u) && Wild(u, t)
    ensures Wild(u, [c] + t)
  {
    assert ([c] + t)[1..] == t;
    if u[0] == '?' {
      assert t == [t[0]] + t[1..];
      WildAbsorbs(u[1..], t[0], t[1..]);
    }
  }

  lemma {:induction false} StarInFront(u: string, t: string)
    requires MeetsStar(u)
    ensures Wild(['*'] + u, t) <==> Wild(u, t)
    decreases |t|
  {
    assert (['*'] + u)[1..] == u;
    if t != "" {
      StarInFront(u, t[1..]);
      assert t == [t[0]] + t[1..];
      if Wild(u, t[1..]) {
        WildAbsorbs(u, t[0], t[1..]);
      }
    }
  }

  lemma {:induction false} StarsMeetStar(s: string)
    requires MeetsStar(Core(s))
    ensures MeetsStar(s)
    decreases |s|
  {
  }

  lemma {:induction false} CoreMeaning(s: string, t: string)
    requires MeetsStar(Core(s))
    ensures Wild(s, t) <==> Wild(Core(s), t)
    decreases |s|
  {
    if DoubleStarAt(s, 0) {
      var u := s[2..];
      PairInFront(s);
      StarsMeetStar(u);
      hide *;
      CoreMeaning(u, t);
      StarInFront(u, t);
      StarInFront(['*'] + u, t);
    }
  }

  lemma PairInFront(s: string)
    requires DoubleStarAt(s, 0)
    ensures Core(s) == Core(s[2..]) && s == ['*'] + (['*'] + s[2..]) && MeetsStar(['*'] + s[2..])
  {
    var one := ['*'] + s[2..];
    assert s[1..] == one && s == [s[0]] + s[1..] && one[0] == '*';
  }

  /** The segment matcher does not notice. */
  lemma {:induction false} TrimsMatch(ps: seq<string>, ts: seq<string>, behindStars: bool)
    requires Faithful(ps, behindStars)
    ensures SegmentsMatch(ps, ts) <==> SegmentsMatch(Trims(ps, behindStars), ts)
    decreases |ps| + |ts|
  {
    if ps != [] {
      var rest := Trims(ps[1..], ps[0] == "**");
      assert Trims(ps, behindStars)[1..] == rest;
      TrimsMatch(ps[1..], ts, ps[0] == "**");
      if ps[0] == "**" {
        if ts != [] {
          TrimsMatch(ps, ts[1..], behindStars);
        }
      } else {
        assert Trim(ps[0], behindStars) != "**";
        if ts != [] {
          TrimsMatch(ps[1..], ts[1..], false);
          if HasDoubleStar(ps[0]) {
            CoreMeaning(ps[0], ts[0]);
          } else {
            NoPairInFront(ps[0]);
          }
        }
      }
    }
  }

  // The expression does not notice either.

  lemma Congruence(a: seq<Atom>, x: seq<Atom>, y: seq<Atom>, t: string)
    requires forall u :: Accepts(x, u) <==> Accepts(y, u)
    ensures Accepts(a + x, t) <==> Accepts(a + y, t)
  {
    hide *;
    AcceptsAppend(a, x, t);
    AcceptsAppend(a, y, t);
  }

  /** One character more in front of a text that question marks and a star take. */
  lemma {:induction false} StarAbsorbs(u: string, tail: string, c: char, x: string)
    requires MeetsStar(u) && !HasDoubleStar(u) && '/' !in u && (tail == "" || tail[0] == '/')
    requires c != '/' && Accepts(Translate(u + tail), x)
    ensures Accepts(Translate(u + tail), [c] + x)
  {
    var a := SegmentFirst(u, tail);
    FirstOf(u, tail, a);
    StarBehind(u);
    hide *;
    var rest := Translate(u[1..] + tail);
    if u[0] == '*' {
      StarTakes(rest, c, x);
    } else {
      AcceptsAny(rest, x);
      StarAbsorbs(u[1..], tail, x[0], x[1..]);
      assert x == [x[0]] + x[1..];
      AnyTakes(rest, c, x);
    }
  }

  lemma StarTakes(rest: seq<Atom>, c: char, x: string)
    requires c != '/' && Accepts([Star] + rest, x)
    ensures Accepts([Star] + rest, [c] + x)
  {
    hide *;
    assert ([c] + x)[1..] == x;
    AcceptsStar(rest, [c] + x);
  }

  lemma AnyTakes(rest: seq<Atom>, c: char, x: string)
    requires c != '/' && Accepts(rest, x)
    ensures Accepts([Any] + rest, [c] + x)
  {
    hide *;
    assert ([c] + x)[1..] == x;
    AcceptsAny(rest, [c] + x);
  }

  lemma StarBehind(u: string)
    requires MeetsStar(u)
    ensures u != "" && (u[0] == '*' || (u[0] == '?' && MeetsStar(u[1..])))
  {
  }

  lemma FirstOf(u: string, tail: string, a: Atom)
    requires u != "" && !HasDoubleStar(u) && Translate(u) == [a] + Translate(u[1..])
    ensures u[0] == '*' ==> a == Star
    ensures u[0] == '?' ==> a == Any
  {
    assert !DoubleStarAt(u, 0);
    assert a == Translate(u)[0] == FirstAtom(u).0;
  }

  lemma {:induction false} StarAbsorbsText(u: string, tail: string, w: string, x: string)
    requires MeetsStar(u) && !HasDoubleStar(u) && '/' !in u && (tail == "" || tail[0] == '/')
    requires '/' !in w && Accepts(Translate(u + tail), x)
    ensures Accepts(Translate(u + tail), w + x)
  {
    if w == "" {
      assert w + x == x;
    } else {
      hide *;
      StarAbsorbsText(u, tail, w[1..], x);
      StarAbsorbs(u, tail, w[0], w[1..] + x);
      assert [w[0]] + (w[1..] + x) == w + x;
    }
  }

  /** The length of the directory part: everything up to and including the last slash. */
  function DirectoryPart(s: string): (k: nat)
    ensures k <= |s| && '/' !in s[k..] && (k > 0 ==> s[k - 1] == '/')
  {
    if s == "" || s[|s| - 1] == '/' then |s|
    else
      var k := DirectoryPart(s[..|s| - 1]);
      assert s[k..] == s[..|s| - 1][k..] + [s[|s| - 1]];
      k
  }

  lemma DirsAppend(d: string, w: string)
    requires Word(Dirs, d) && Word(Dirs, w)
    ensures Word(Dirs, d + w)
  {
    if w == "" {
      assert d + w == d;
    } else {
      PlainAppend(d, w);
    }
  }

  // Behind a `**` segment and in front of a star, `.*` adds nothing.
  lemma DeepAddsNothing(u: string, tail: string, t: string)
    requires MeetsStar(u) && !HasDoubleStar(u) && '/' !in u && (tail == "" || tail[0] == '/')
    ensures Accepts([Dirs] + ([Deep] + Translate(u + tail)), t) <==> Accepts([Dirs] + Translate(u + tail), t)
  {
    var x := Translate(u + tail);
    hide *;
    if Accepts([Dirs] + ([Deep] + x), t) {
      var i := HeadCut(Dirs, [Deep] + x, t);
      var j := HeadCut(Deep, x, t[i..]);
      var w, v := t[i..][..j], t[i..][j..];
      var k := DirectoryPart(w);
      DeepParts(w, k);
      DirsAppend(t[..i], w[..k]);
      StarAbsorbsText(u, tail, w[k..], v);
      JoinCuts(t, i, j, k);
      HeadJoin(Dirs, x, t, i + k);
    }
    if Accepts([Dirs] + x, t) {
      var i := HeadCut(Dirs, x, t);
      assert t[i..][..0] == "" && t[i..][0..] == t[i..];
      NoDeep();
      HeadJoin(Deep, x, t[i..], 0);
      HeadJoin(Dirs, [Deep] + x, t, i);
    }
  }

  lemma JoinCuts(t: string, i: nat, j: nat, k: nat)
    requires i <= |t| && j <= |t| - i && k <= j
    ensures t[..i] + t[i..][..j][..k] == t[..i + k]
    ensures t[i..][..j][k..] + t[i..][j..] == t[i + k..]
  {
  }

  lemma DeepParts(w: string, k: nat)
    requires Word(Deep, w) && k <= |w| && (k > 0 ==> w[k - 1] == '/')
    ensures Word(Dirs, w[..k])
  {
  }

  lemma NoDeep()
    ensures Word(Deep, "")
  {
  }

  lemma DeepTwice(x: seq<Atom>, t: string)
    ensures Accepts([Deep] + ([Deep] + x), t) <==> Accepts([Deep] + x, t)
  {
    hide *;
    NoDeep();
    if Accepts([Deep] + ([Deep] + x), t) {
      var i := HeadCut(Deep, [Deep] + x, t);
      var j := HeadCut(Deep, x, t[i..]);
      DeepAppend(t[..i], t[i..][..j]);
      assert t[..i + j] == t[..i] + t[i..][..j] && t[i..][j..] == t[i + j..];
      HeadJoin(Deep, x, t, i + j);
    }
    if Accepts([Deep] + x, t) {
      assert t[..0] == "" && t[0..] == t;
      HeadJoin(Deep, [Deep] + x, t, 0);
    }
  }

  lemma DeepAppend(a: string, b: string)
    requires Word(Deep, a) && Word(Deep, b)
    ensures Word(Deep, a + b)
  {
    PlainAppend(a, b);
  }

  lemma DeepFirst(s: string, tail: string)
    requires DoubleStarAt(s, 0) && |s| > 2 && '/' !in s
    ensures Translate(s + tail) == [Deep] + Translate(s[2..] + tail)
  {
    var p := s + tail;
    assert DoubleStarAt(p, 0) && p[2] == s[2] != '/' && p[2..] == s[2..] + tail;
    assert FirstAtom(p) == (Deep, 2);
  }

  lemma {:induction false} TrimAccepts(s: string, tail: string, t: string)
    requires DoubleStarAt(s, 0) && Absorbed(s) && '/' !in s && (tail == "" || tail[0] == '/')
    ensures Accepts([Dirs] + Translate(s + tail), t) <==> Accepts([Dirs] + Translate(Core(s) + tail), t)
    decreases |s|
  {
    var u := s[2..];
    PairInFront(s);
    DeepFirst(s, tail);
    var x := Translate(u + tail);
    if DoubleStarAt(u, 0) {
      PairInFront(u);
      DeepFirst(u, tail);
      TrimAccepts(u, tail, t);
      var y := Translate(u[2..] + tail);
      forall v
        ensures Accepts([Deep] + ([Deep] + y), v) <==> Accepts([Deep] + y, v)
      {
        DeepTwice(y, v);
      }
      Congruence([Dirs], [Deep] + ([Deep] + y), [Deep] + y, t);
    } else {
      DeepAddsNothing(u, tail, t);
    }
  }

  function Lead(behindStars: bool): seq<Atom> {
    if behindStars then [Dirs] else []
  }

  /** One segment and what follows it, behind the atoms of the segments before. */
  lemma TrimOne(s: string, tail: string, behindStars: bool, t: string)
    requires '/' !in s && (tail == "" || tail[0] == '/')
    requires !HasDoubleStar(s) || (behindStars && Absorbed(s))
    ensures s != "**" ==>
      (Accepts(Lead(behindStars) + Translate(s + tail), t)
       <==> Accepts(Lead(behindStars) + Translate(Trim(s, behindStars) + tail), t))
  {
    if !HasDoubleStar(s) {
      NoPairInFront(s);
    } else if DoubleStarAt(s, 0) {
      TrimAccepts(s, tail, t);
    }
  }

  lemma {:induction false} ReducedAccepts(p: string, behindStars: bool, t: string)
    requires Faithful(Split(p, '/'), behindStars)
    ensures Accepts(Lead(behindStars) + Translate(p), t)
            <==> Accepts(Lead(behindStars) + Translate(Reduced(p, behindStars)), t)
    decreases |p|
  {
    hide *;
    ReducedUnfold(p, behindStars);
    if '/' in p {
      var f := IndexOf(p, '/').value;
      var s, q := p[..f], p[f + 1..];
      var r := Reduced(q, s == "**");
      assert p == s + (['/'] + q);
      if s == "**" {
        forall u
          ensures Accepts([Dirs] + Translate(q), u) <==> Accepts([Dirs] + Translate(r), u)
        {
          ReducedAccepts(q, true, u);
          LeadIs(true);
        }
        TranslateDirs(q);
        TranslateDirs(r);
        Congruence(Lead(behindStars), [Dirs] + Translate(q), [Dirs] + Translate(r), t);
      } else {
        TrimOne(s, ['/'] + q, behindStars, t);
        forall u
          ensures Accepts(Translate(q), u) <==> Accepts(Translate(r), u)
        {
          ReducedAccepts(q, false, u);
          LeadIs(false);
          assert [] + Translate(q) == Translate(q) && [] + Translate(r) == Translate(r);
        }
        ReducedRest(Trim(s, behindStars), q, r, Lead(behindStars), t);
      }
    } else if p != "**" {
      TrimOne(p, "", behindStars, t);
      assert p + "" == p && Trim(p, behindStars) + "" == Trim(p, behindStars);
    }
  }

  lemma LeadIs(behindStars: bool)
    ensures Lead(behindStars) == if behindStars then [Dirs] else []
  {
  }

  /** The first segment is ordinary once it is trimmed, and the rest can be exchanged behind it. */
  lemma ReducedRest(s: string, q: string, r: string, lead: seq<Atom>, t: string)
    requires '/' !in s && !HasDoubleStar(s)
    requires forall u :: Accepts(Translate(q), u) <==> Accepts(Translate(r), u)
    ensures Accepts(lead + Translate(s + (['/'] + q)), t) <==> Accepts(lead + Translate(s + (['/'] + r)), t)
  {
    hide *;
    var a := lead + Translate(s) + [Lit('/')];
    forall x | x == q || x == r
      ensures Translate(s + (['/'] + x)) == Translate(s) + ([Lit('/')] + Translate(x))
    {
      TranslateSegment(s, ['/'] + x);
      TranslateSlash(x);
    }
    assert lead + (Translate(s) + ([Lit('/')] + Translate(q))) == a + Translate(q);
    assert lead + (Translate(s) + ([Lit('/')] + Translate(r))) == a + Translate(r);
    Congruence(a, Translate(q), Translate(r), t);
  }

  lemma ReducedUnfold(p: string, behindStars: bool)
    requires Faithful(Split(p, '/'), behindStars)
    ensures
      if '/' in p then
        var f := IndexOf(p, '/').value;
        var s, q := p[..f], p[f + 1..];
        && Faithful(Split(q, '/'), s == "**")
        && (s == "**" || !HasDoubleStar(s) || (behindStars && Absorbed(s)))
        && (s != "**" ==> !HasDoubleStar(Trim(s, behindStars)) && '/' !in Trim(s, behindStars))
        && (s == "**" ==> Trim(s, behindStars) == "**")
        && Reduced(p, behindStars) == Trim(s, behindStars) + (['/'] + Reduced(q, s == "**"))
      else
        && (p == "**" || !HasDoubleStar(p) || (behindStars && Absorbed(p)))
        && (p == "**" ==> Trim(p, behindStars) == p)
        && Reduced(p, behindStars) == Trim(p, behindStars)
  {
    if '/' in p {
      var f := IndexOf(p, '/').value;
      SplitAt(p, f);
      var s, q := p[..f], p[f + 1..];
      assert Split(p, '/')[1..] == Split(q, '/');
      TrimSlashless(s, behindStars);
      if !HasDoubleStar(s) {
        NoPairInFront(s);
      }
    } else {
      SplitWhole(p);
    }
  }

  /** For such a pattern the expression is the segment matcher. */
  lemma FaithfulMeaning(p: string, t: string)
    requires Faithful(Split(p, '/'), false)
    ensures Accepts(Translate(p), t) <==> SegmentsMatch(Split(p, '/'), Split(t, '/'))
  {
    hide *;
    var r := Reduced(p, false);
    ReducedAccepts(p, false, t);
    LeadIs(false);
    assert [] + Translate(p) == Translate(p) && [] + Translate(r) == Translate(r);
    TrimsMatch(Split(p, '/'), Split(t, '/'), false);
    ReducedSplit(p, false);
    TrimsWhole(Split(p, '/'), false);
    WholeFromSegments(r);
    GlobMeaning(r, t);
  }

  lemma WholeFromSegments(p: string)
    requires forall s :: s in Split(p, '/') ==> s == "**" || !HasDoubleStar(s)
    ensures WholeStars(p)
  {
  }

  // Case folding keeps a pattern faithful.

  lemma FoldStars(fold: char -> char, s: string)
    requires Folding(fold)
    ensures HasDoubleStar(FoldAll(fold, s)) <==> HasDoubleStar(s)
    ensures DoubleStarAt(FoldAll(fold, s), 0) <==> DoubleStarAt(s, 0)
    ensures FoldAll(fold, s) == "**" <==> s == "**"
  {
    var f := FoldAll(fold, s);
    forall i: nat | i < |s|
      ensures DoubleStarAt(f, i) <==> DoubleStarAt(s, i)
    {
    }
  }

  lemma {:induction false} FoldMeetsStar(fold: char -> char, s: string)
    requires Folding(fold)
    ensures MeetsStar(FoldAll(fold, s)) <==> MeetsStar(s)
  {
    if s != "" {
      assert FoldAll(fold, s)[1..] == FoldAll(fold, s[1..]);
      FoldMeetsStar(fold, s[1..]);
    }
  }

  lemma {:induction false} FoldCore(fold: char -> char, s: string)
    requires Folding(fold)
    ensures Core(FoldAll(fold, s)) == FoldAll(fold, Core(s))
    decreases |s|
  {
    FoldStars(fold, s);
    if DoubleStarAt(s, 0) {
      assert FoldAll(fold, s)[2..] == FoldAll(fold, s[2..]);
      FoldCore(fold, s[2..]);
    }
  }

  lemma {:induction false} FoldFaithful(
    fold: char -> char, segments: seq<string>, folded: seq<string>, behindStars: bool)
    requires Folding(fold) && |folded| == |segments|
    requires forall i :: 0 <= i < |segments| ==> folded[i] == FoldAll(fold, segments[i])
    ensures Faithful(folded, behindStars) <==> Faithful(segments, behindStars)
  {
    if segments != [] {
      var s := segments[0];
      assert folded[0] == FoldAll(fold, s);
      FoldStars(fold, s);
      FoldCore(fold, s);
      FoldStars(fold, Core(s));
      FoldMeetsStar(fold, Core(s));
      hide Folding, FoldAll, HasDoubleStar, Core, MeetsStar;
      FoldFaithful(fold, segments[1..], folded[1..], s == "**");
    }
  }

  lemma FoldPattern(fold: char -> char, p: string)
    requires Folding(fold)
    ensures Faithful(Split(FoldAll(fold, p), '/'), false) <==> Faithful(Split(p, '/'), false)
  {
    FoldSplit(fold, p);
    FoldFaithful(fold, Split(p, '/'), Split(FoldAll(fold, p), '/'), false);
  }
}
