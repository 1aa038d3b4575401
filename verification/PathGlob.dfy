/** `pathGlobMatches`: normalisation, brace expansion and the compiled expressions put together. */
module PathGlob {
  import opened Common
  import opened GlobBraces
  import opened GlobRegex
  import opened GlobExact

  function Forward(s: string): (r: string)
    ensures |r| == |s|
  {
    seq(|s|, i requires 0 <= i < |s| => if s[i] == '\\' then '/' else s[i])
  }

  /** Forward slashes, without one leading `./` and without one trailing slash. */
  function NormalizePattern(raw: string): string {
    WithoutSlash(WithoutDot(Forward(raw)))
  }

  function WithoutDot(s: string): string {
    if |s| >= 2 && s[0] == '.' && s[1] == '/' then s[2..] else s
  }

  function WithoutSlash(s: string): string {
    if s != "" && s[|s| - 1] == '/' then s[..|s| - 1] else s
  }

  predicate PathGlobMatches(fold: char -> char, relativePath: string, raw: string) {
    var pattern := NormalizePattern(raw);
    pattern != "" &&
    exists e :: e in ExpandBraces(pattern) && ExpressionTest(fold, Expression(e), Forward(relativePath))
  }

  /** `fold` stands for the flags of the platform. */
  method PathGlobMatchesByLoop(fold: char -> char, relativePath: string, raw: string) returns (matches: bool)
    ensures matches == PathGlobMatches(fold, relativePath, raw)
  {
    var pattern := NormalizePattern(raw);
    if pattern == "" {
      return false;
    }
    var expansions := ExpandBracesByLoop(pattern);
    matches := AnyMatches(fold, expansions, Forward(relativePath));
  }

  /** `some` over the expansions. */
  method AnyMatches(fold: char -> char, expansions: seq<string>, target: string) returns (found: bool)
    ensures found <==> exists e :: e in expansions && ExpressionTest(fold, Expression(e), target)
  {
    hide ExpressionTest, Expression;
    for i := 0 to |expansions|
      invariant forall e :: e in expansions[..i] ==> !ExpressionTest(fold, Expression(e), target)
    {
      var expression := PatternRegExp(expansions[i]);
      var hit := ExpressionTest(fold, expression, target);
      if hit {
        return true;
      }
      assert expansions[..i + 1] == expansions[..i] + [expansions[i]];
    }
    assert expansions[..|expansions|] == expansions;
    return false;
  }

  /** The segment reading of one brace-free pattern, after the rewrite of a bare name. */
  predicate SegmentReading(fold: char -> char, e: string, target: string) {
    SegmentsMatch(Split(FoldAll(fold, Rewrite(e)), '/'), Split(FoldAll(fold, target), '/'))
  }

  /** What one brace-free pattern accepts: segment by segment if faithful, else the language of its translation. */
  predicate Reading(fold: char -> char, e: string, target: string) {
    if Faithful(Split(Rewrite(e), '/'), false) then SegmentReading(fold, e, target)
    else Accepts(Translate(FoldAll(fold, Rewrite(e))), FoldAll(fold, target))
  }

  /**
   The reading the matcher is for: the pattern is a tree of alternatives, one of whose strings matches the path,
   segment by segment if the string is faithful, and up to case where the platform ignores it.
   */
  lemma PathGlobMeaning(fold: char -> char, relativePath: string, raw: string, t: Tree)
    requires Folding(fold)
    requires WellFormed(t, false) && Print(t) == NormalizePattern(raw)
    ensures PathGlobMatches(fold, relativePath, raw) <==>
      NormalizePattern(raw) != "" && exists e :: e in Strings(t) && Reading(fold, e, Forward(relativePath))
  {
    var target := Forward(relativePath);
    ExpansionOfTree(t);
    forall e | e in Strings(t)
      ensures ExpressionTest(fold, Expression(e), target) <==> Reading(fold, e, target)
    {
      ExpressionMeaning(fold, e, target);
      FoldPattern(fold, Rewrite(e));
      if Faithful(Split(Rewrite(e), '/'), false) {
        FaithfulMeaning(FoldAll(fold, Rewrite(e)), FoldAll(fold, target));
      }
    }
  }

  /** Every string of a balanced pattern is compiled without a brace in it. */
  lemma BalancedPatternCompiles(raw: string)
    requires Balanced(NormalizePattern(raw))
    ensures exists t :: WellFormed(t, false) && Print(t) == NormalizePattern(raw)
    ensures forall e :: e in ExpandBraces(NormalizePattern(raw)) ==> Braceless(e)
  {
    BalancedPatternExpansion(NormalizePattern(raw));
    BracelessIffBalanced(NormalizePattern(raw));
  }

  // ---------------------------------------------------------------------------------------------------------
  // Bare names.

  lemma {:induction false} TranslateLetters(x: string, tail: string, t: string)
    requires !HasWildcard(x)
    ensures Accepts(Translate(x + tail), t) <==> x <= t && Accepts(Translate(tail), t[|x|..])
  {
    if x == "" {
      assert x + tail == tail && t[0..] == t;
    } else {
      assert (x + tail)[1..] == x[1..] + tail;
      assert FirstAtom(x + tail) == (Lit(x[0]), 1);
      AcceptsLit(x[0], Translate(x[1..] + tail), t);
      if t != "" && t[0] == x[0] {
        TranslateLetters(x[1..], tail, t[1..]);
        assert x == [x[0]] + x[1..] && t == [t[0]] + t[1..];
        assert x <= t <==> x[1..] <= t[1..];
      }
    }
  }

  lemma SubtreeTail()
    ensures Translate("**/*") == [Dirs, Star]
  {
    assert FirstAtom("**/*") == (Dirs, 3) && "**/*"[3..] == "*";
    assert FirstAtom("*") == (Star, 1) && "*"[1..] == "";
    assert Translate("*") == [Star];
  }

  /** A directory part without line terminators, and any name. */
  lemma SubtreeAccepts(rest: string)
    ensures Accepts([Dirs, Star], rest) <==> Plain(rest[..DirectoryPart(rest)])
  {
    var k := DirectoryPart(rest);
    assert [Dirs] + [Star] == [Dirs, Star];
    if Accepts([Dirs, Star], rest) {
      SubtreeCut(rest);
    }
    if Plain(rest[..k]) {
      hide Accepts, Plain, DirectoryPart;
      AcceptsOne(Star, rest[k..]);
      assert k > 0 ==> rest[..k][k - 1] == '/';
      HeadJoin(Dirs, [Star], rest, k);
    }
  }

  lemma SubtreeCut(rest: string)
    requires Accepts([Dirs, Star], rest)
    ensures Plain(rest[..DirectoryPart(rest)])
  {
    hide Accepts, Plain, DirectoryPart;
    assert [Dirs] + [Star] == [Dirs, Star];
    var j := HeadCut(Dirs, [Star], rest);
    AcceptsOne(Star, rest[j..]);
    DirsWord(rest[..j]);
    OneCut(rest, j, DirectoryPart(rest));
  }

  lemma DirsWord(w: string)
    requires Word(Dirs, w)
    ensures Plain(w) && (w == "" || w[|w| - 1] == '/')
  {
  }

  /** A cut behind a slash, or in front of everything, with no slash behind it, is the one behind the last slash. */
  lemma OneCut(s: string, j: nat, k: nat)
    requires j <= |s| && k <= |s| && '/' !in s[j..] && '/' !in s[k..]
    requires (j > 0 ==> s[..j][j - 1] == '/') && (k > 0 ==> s[k - 1] == '/')
    ensures j == k
  {
    assert forall i :: j <= i < |s| ==> s[i] == s[j..][i - j];
    assert forall i :: k <= i < |s| ==> s[i] == s[k..][i - k];
  }

  lemma BareNameRewrites(fold: char -> char, name: string)
    requires Folding(fold) && !HasWildcard(name) && !HasExtension(name)
    ensures FoldAll(fold, Rewrite(name)) == (FoldAll(fold, name) + "/") + "**/*"
    ensures !HasWildcard(FoldAll(fold, name) + "/")
  {
    assert forall i :: 0 <= i < |name| ==> FoldAll(fold, name)[i] == fold(name[i]) && name[i] in name;
    assert fold('/') == '/' && fold('*') == '*';
    assert Rewrite(name) == name + "/**/*";
  }

  /**
   A bare extensionless name matches what lies below it, at any depth, and not the name itself: every path with that
   directory in front whose further directories hold no line terminator.
   */
  lemma BareNameSubtree(fold: char -> char, name: string, t: string)
    requires Folding(fold) && !HasWildcard(name) && !HasExtension(name)
    ensures ExpressionTest(fold, Expression(name), t) <==>
      FoldAll(fold, name) + "/" <= FoldAll(fold, t) &&
      (var below := FoldAll(fold, t)[|name| + 1..]; Plain(below[..DirectoryPart(below)]))
  {
    ExpressionMeaning(fold, name, t);
    BareNameRewrites(fold, name);
    hide *;
    var directory, target := FoldAll(fold, name) + "/", FoldAll(fold, t);
    TranslateLetters(directory, "**/*", target);
    SubtreeTail();
    if directory <= target {
      SubtreeAccepts(target[|directory|..]);
    }
  }

  // ---------------------------------------------------------------------------------------------------------
  // Raw patterns.

  /** What a pattern accepts as it stands: some string of its expansion accepts the path. */
  predicate AcceptsAsWritten(fold: char -> char, relativePath: string, pattern: string) {
    pattern != "" &&
    exists e :: e in ExpandBraces(pattern) && ExpressionTest(fold, Expression(e), Forward(relativePath))
  }

  /**
   Every raw pattern is some `x` with at most one `./` in front and at most one slash behind it, taken as far as they
   are there; they do not count, and `x` is matched as written. `x` may start with `./` or end in a slash itself.
   */
  lemma MarksDoNotCount(fold: char -> char, t: string, front: string, x: string, back: string)
    requires '\\' !in x && (front == "" || front == "./") && (back == "" || back == "/")
    requires front == "" ==> !("./" <= x + back)
    requires back == "" ==> x == "" || x[|x| - 1] != '/'
    ensures PathGlobMatches(fold, t, front + x + back) <==> AcceptsAsWritten(fold, t, x)
  {
    NormalisesTo(front, x, back);
  }

  lemma NormalisesTo(front: string, x: string, back: string)
    requires '\\' !in x && (front == "" || front == "./") && (back == "" || back == "/")
    requires front == "" ==> !("./" <= x + back)
    requires back == "" ==> x == "" || x[|x| - 1] != '/'
    ensures NormalizePattern(front + x + back) == x
  {
    var raw, inner := front + x + back, x + back;
    hide *;
    Grouped(front, x, back);
    ForwardSame(raw);
    FrontGone(front, inner);
    BackGone(x, back);
    NormalIs(raw);
  }

  lemma NormalIs(raw: string)
    ensures NormalizePattern(raw) == WithoutSlash(WithoutDot(Forward(raw)))
  {
  }

  lemma ForwardSame(s: string)
    requires '\\' !in s
    ensures Forward(s) == s
  {
  }

  lemma FrontGone(front: string, inner: string)
    requires front == "./" || (front == "" && !("./" <= inner))
    ensures WithoutDot(front + inner) == inner
  {
    StartsDotSlash(inner);
    assert front == "" ==> front + inner == inner;
    assert (front + inner)[|front|..] == inner;
  }

  lemma BackGone(x: string, back: string)
    requires back == "/" || (back == "" && (x == "" || x[|x| - 1] != '/'))
    ensures WithoutSlash(x + back) == x
  {
    assert (x + back)[..|x|] == x;
    assert back == "" ==> x + back == x;
  }

  /** Each raw pattern without backslashes has one such form. */
  lemma RawForm(raw: string) returns (front: string, x: string, back: string)
    requires '\\' !in raw
    ensures raw == front + x + back && (front == "" || front == "./") && (back == "" || back == "/")
    ensures '\\' !in x && (front == "" ==> !("./" <= x + back)) && (back == "" ==> x == "" || x[|x| - 1] != '/')
    ensures front == "./" ==> "./" <= raw
    ensures back == "/" ==> raw != "" && raw[|raw| - 1] == '/'
  {
    front := if "./" <= raw then "./" else "";
    var inner := raw[|front|..];
    assert raw == front + inner;
    x, back := BackOf(inner);
    Grouped(front, x, back);
    assert inner != "" ==> raw[|raw| - 1] == inner[|inner| - 1];
    assert front == "" ==> inner == raw;
  }

  lemma BackOf(inner: string) returns (x: string, back: string)
    ensures inner == x + back && (back == "" || back == "/")
    ensures forall c :: c in x ==> c in inner
    ensures back == "" ==> x == "" || x[|x| - 1] != '/'
    ensures back == "/" ==> inner != "" && inner[|inner| - 1] == '/'
  {
    if inner != "" && inner[|inner| - 1] == '/' {
      x, back := inner[..|inner| - 1], "/";
    } else {
      x, back := inner, "";
    }
  }

  lemma Grouped(a: string, b: string, c: string)
    ensures a + (b + c) == a + b + c
  {
  }

  /** Slash or backslash, the same otherwise. */
  predicate SameButSlashes(a: string, b: string) {
    |a| == |b| && forall i :: 0 <= i < |a| ==>
      a[i] == b[i] || ((a[i] == '/' || a[i] == '\\') && (b[i] == '/' || b[i] == '\\'))
  }

  lemma ForwardAgrees(a: string, b: string)
    requires SameButSlashes(a, b)
    ensures Forward(a) == Forward(b)
  {
  }

  /** Which slash is written does not matter, in the pattern or in the path. */
  lemma SlashesAreOne(fold: char -> char, t: string, t': string, p: string, p': string)
    requires SameButSlashes(t, t') && SameButSlashes(p, p')
    ensures PathGlobMatches(fold, t, p) <==> PathGlobMatches(fold, t', p')
  {
    ForwardAgrees(t, t');
    ForwardAgrees(p, p');
    NormalIs(p);
    NormalIs(p');
    hide NormalizePattern, Forward, SameButSlashes, ExpandBraces, ExpressionTest, Expression;
  }

  lemma StartsDotSlash(y: string)
    ensures "./" <= y <==> |y| >= 2 && y[0] == '.' && y[1] == '/'
  {
    if |y| >= 2 {
      assert y[..2] == [y[0], y[1]];
    }
  }

  lemma DotSlash(x: string)
    ensures "./" <= x + "/" <==> x == "." || "./" <= x
  {
    StartsDotSlash(x + "/");
    StartsDotSlash(x);
    assert |x| == 1 ==> x == [x[0]];
  }

  lemma LastSlash(fold: char -> char, t: string, p: string)
    requires '\\' !in p && p != "." && (p == "" || p[|p| - 1] != '/')
    ensures PathGlobMatches(fold, t, p + "/") <==> PathGlobMatches(fold, t, p)
  {
    hide *;
    var front, x, back := RawForm(p);
    MarksDoNotCount(fold, t, front, x, back);
    NothingBehind(front + x, back);
    if front == "" {
      NothingBehind(x, back);
      NothingBefore(front, x);
      DotSlash(x);
    }
    MarksDoNotCount(fold, t, front, x, "/");
  }

  lemma FirstDot(fold: char -> char, t: string, p: string)
    requires '\\' !in p && !("./" <= p)
    ensures PathGlobMatches(fold, t, "./" + p) <==> PathGlobMatches(fold, t, p)
  {
    hide *;
    var front, x, back := RawForm(p);
    MarksDoNotCount(fold, t, front, x, back);
    Grouped(front, x, back);
    NothingBefore(front, x + back);
    Grouped("./", x, back);
    MarksDoNotCount(fold, t, "./", x, back);
  }

  lemma ForwardIsSame(p: string)
    ensures SameButSlashes(p, Forward(p)) && '\\' !in Forward(p)
    ensures SameButSlashes(p + "/", Forward(p) + "/") && SameButSlashes("./" + p, "./" + Forward(p))
  {
  }

  /** One slash more at the end changes nothing where there is none. */
  lemma SlashAddsNothing(fold: char -> char, t: string, p: string)
    requires p != "." && (p == "" || (p[|p| - 1] != '/' && p[|p| - 1] != '\\'))
    ensures PathGlobMatches(fold, t, p + "/") <==> PathGlobMatches(fold, t, p)
  {
    var q := Forward(p);
    assert p != "" ==> q[|q| - 1] != '/';
    assert |p| == 1 ==> p == [p[0]] && q == [q[0]];
    ForwardIsSame(p);
    ForwardIsSame(t);
    hide PathGlobMatches, Forward;
    SlashesAreOne(fold, t, Forward(t), p, q);
    SlashesAreOne(fold, t, Forward(t), p + "/", q + "/");
    LastSlash(fold, Forward(t), q);
  }

  /** The one directory that takes no slash: `./` matches nothing, while `.` matches what lies below it. */
  lemma DotTakesNoSlash(fold: char -> char)
    requires Folding(fold)
    ensures forall t :: !PathGlobMatches(fold, t, "./")
    ensures PathGlobMatches(fold, "./a", ".")
  {
    assert NormalizePattern("./") == "";
    var name, path := ".", "./a";
    assert Forward(path) == path && FoldAll(fold, path)[..2] == FoldAll(fold, name) + "/";
    assert FoldAll(fold, path)[2..] == [fold('a')] && DirectoryPart([fold('a')]) == 0;
    SplitWhole(name);
    DirectoryIncludesSubtree(fold, path, name, "");
    assert name + "" == name;
  }

  /** Nor does one `./` more in front. */
  lemma DotAddsNothing(fold: char -> char, t: string, p: string)
    requires !("./" <= Forward(p))
    ensures PathGlobMatches(fold, t, "./" + p) <==> PathGlobMatches(fold, t, p)
  {
    ForwardIsSame(p);
    ForwardIsSame(t);
    hide PathGlobMatches, Forward;
    SlashesAreOne(fold, t, Forward(t), p, Forward(p));
    SlashesAreOne(fold, t, Forward(t), "./" + p, "./" + Forward(p));
    FirstDot(fold, Forward(t), Forward(p));
  }

  lemma NothingBehind(a: string, b: string)
    ensures b == "" ==> a + b == a
  {
  }

  lemma NothingBefore(a: string, b: string)
    ensures a == "" ==> a + b == b
  {
  }

  lemma BracelessExpands(name: string)
    requires Braceless(name)
    ensures ExpandBraces(name) == [name]
  {
    LettersExpand(name);
  }

  /** A directory name, as it is or with a slash behind it, includes exactly what lies below the directory. */
  lemma DirectoryIncludesSubtree(fold: char -> char, t: string, name: string, slash: string)
    requires Folding(fold) && !HasWildcard(name) && !HasExtension(name) && Braceless(name)
    requires '\\' !in name && name != "" && name[|name| - 1] != '/' && !("./" <= name)
    requires slash == "" || (slash == "/" && name != ".")
    ensures PathGlobMatches(fold, t, name + slash) <==>
      FoldAll(fold, name) + "/" <= FoldAll(fold, Forward(t)) &&
      (var below := FoldAll(fold, Forward(t))[|name| + 1..]; Plain(below[..DirectoryPart(below)]))
  {
    assert "" + name + slash == name + slash;
    DotSlash(name);
    assert name + "" == name;
    MarksDoNotCount(fold, t, "", name, slash);
    BracelessExpands(name);
    BareNameSubtree(fold, name, Forward(t));
    hide ExpressionTest, Expression, Plain, DirectoryPart, PathGlobMatches;
  }

  /** A name with an extension matches itself only. */
  lemma FileNameMatchesItself(fold: char -> char, t: string, name: string)
    requires Folding(fold) && !HasWildcard(name) && HasExtension(name) && Braceless(name)
    requires '\\' !in name && name != "" && name[|name| - 1] != '/' && !("./" <= name)
    ensures PathGlobMatches(fold, t, name) <==> FoldAll(fold, name) == FoldAll(fold, Forward(t))
  {
    assert "" + name + "" == name && name + "" == name;
    MarksDoNotCount(fold, t, "", name, "");
    BracelessExpands(name);
    FileNameExpression(fold, name, Forward(t));
    hide ExpressionTest, Expression, PathGlobMatches;
  }

  lemma FileNameExpression(fold: char -> char, name: string, t: string)
    requires Folding(fold) && !HasWildcard(name) && HasExtension(name)
    ensures ExpressionTest(fold, Expression(name), t) <==> FoldAll(fold, name) == FoldAll(fold, t)
  {
    var f, target := FoldAll(fold, name), FoldAll(fold, t);
    ExpressionMeaning(fold, name, t);
    FoldedLetters(fold, name);
    assert Rewrite(name) == name;
    hide *;
    TranslateLetters(f, "", target);
    assert f + "" == f;
    if f <= target {
      NothingLeftAccepts(target[|f|..]);
      assert target == f + target[|f|..];
    }
  }

  lemma FoldedLetters(fold: char -> char, name: string)
    requires Folding(fold) && !HasWildcard(name)
    ensures !HasWildcard(FoldAll(fold, name))
  {
    assert forall i :: 0 <= i < |name| ==> FoldAll(fold, name)[i] == fold(name[i]) && name[i] in name;
  }

  lemma NothingLeftAccepts(t: string)
    ensures Accepts(Translate(""), t) <==> t == ""
  {
  }

  /** Which names have an extension: a dot in the last segment, not in front of it, and more than `..`. */
  lemma ExtensionOfLastSegment(directory: string, base: string)
    requires '/' !in base && base != ""
    ensures HasExtension(directory + ("/" + base)) <==> HasExtension(base)
    ensures HasExtension(base + "/") <==> HasExtension(base)
    ensures HasExtension(base) <==> base != ".." && '.' in base[1..]
  {
    SplitWhole(base);
    var p := directory + ("/" + base);
    assert p[|p| - 1] == base[|base| - 1] && base[|base| - 1] in base;
    assert TrimSlashes(p) == p && TrimSlashes(base) == base;
    assert (base + "/")[..|base|] == base;
    SplitLast(directory, base);
    assert forall i :: 0 < i < |base| ==> base[1..][i - 1] == base[i];
    if '.' in base[1..] {
      var j :| 0 <= j < |base| - 1 && base[1..][j] == '.';
      assert base[j + 1] == '.';
    }
  }

  lemma {:induction false} SplitLast(directory: string, base: string)
    requires '/' !in base
    ensures LastSegment(directory + ("/" + base)) == base
  {
    if directory == "" {
      SplitFirst("", base);
      SplitWhole(base);
      assert "" + ("/" + base) == "/" + base;
    } else {
      var p := directory + ("/" + base);
      assert p[1..] == directory[1..] + ("/" + base);
      SplitLast(directory[1..], base);
      SplitCount(directory[1..], base);
    }
  }

  lemma {:induction false} SplitCount(directory: string, base: string)
    requires '/' !in base
    ensures |Split(directory + ("/" + base), '/')| >= 2
  {
    if directory == "" {
      SplitFirst("", base);
      assert "" + ("/" + base) == "/" + base;
    } else {
      assert (directory + ("/" + base))[1..] == directory[1..] + ("/" + base);
      SplitCount(directory[1..], base);
    }
  }
}
