/**
 * The route-template compiler of the message router
 * (omnibot_receiver/router.py, `OmnibotMessageRouter._get_route_pattern`).
 *
 * The source rewrites a template with two regular-expression substitutions,
 * one after the other:
 *   1. every `<name>` becomes `(?P<name>.+)`   (a greedy named group),
 *   2. every `<name?>` becomes `(?P<name>.+?)` (a lazy named group),
 * and anchors the result as `^...$`.  A compiled pattern is identified here
 * with that regular-expression text, which is what Python compares when it
 * compares two compiled patterns.
 *
 * `SubGreedy` and `SubLazy` model the two substitutions exactly, as the
 * left-to-right, non-overlapping scan `re.sub` performs.  `Tokenize` reads a
 * template once into literal characters and placeholders; the lemmas prove
 * that the reading loses nothing (`TokenizeRoundTrip`) and that the two passes
 * together rewrite every placeholder of that reading and copy every other
 * character (`GetRoutePatternRewrites`).
 */
module Pattern {

  /** The characters of `\w`, restricted to ASCII. */
  predicate IsWordChar(c: char) {
    ('a' <= c <= 'z') || ('A' <= c <= 'Z') || ('0' <= c <= '9') || c == '_'
  }

  predicate IsWord(s: string) {
    forall i :: 0 <= i < |s| ==> IsWordChar(s[i])
  }

  /** Length of the longest prefix of `s` made of word characters: what `\w+` consumes. */
  function WordRun(s: string): (k: nat)
    ensures k <= |s|
    ensures IsWord(s[..k])
    ensures k < |s| ==> !IsWordChar(s[k])
  {
    if |s| > 0 && IsWordChar(s[0]) then
      var k := 1 + WordRun(s[1..]);
      assert s[..k] == [s[0]] + s[1..][..k - 1];
      k
    else 0
  }

  /** The word characters after the first character of `s`. */
  function NameAfter(s: string): (n: string)
    requires |s| > 0
    ensures IsWord(n) && |n| == WordRun(s[1..]) && n == s[1..|n| + 1]
  {
    s[1..][..WordRun(s[1..])]
  }

  /** `s` starts with `<name>`, name a non-empty run of word characters: a match of `<\w+>`. */
  predicate StartsGreedy(s: string) {
    && |s| > 0 && s[0] == '<'
    && var k := WordRun(s[1..]);
       k > 0 && k + 1 < |s| && s[k + 1] == '>'
  }

  /** `s` starts with `<name?>`: a match of `<\w+\?>`. */
  predicate StartsLazy(s: string) {
    && |s| > 0 && s[0] == '<'
    && var k := WordRun(s[1..]);
       k > 0 && k + 2 < |s| && s[k + 1] == '?' && s[k + 2] == '>'
  }

  function GreedyGroup(name: string): string { "(?P<" + name + ">.+)" }

  function LazyGroup(name: string): string { "(?P<" + name + ">.+?)" }

  /**
   * One step of the first substitution at the start of `s`: the text it emits
   * and the number of characters it consumes.
   */
  function GreedyStep(s: string): (r: (string, nat))
    requires |s| > 0
    ensures 0 < r.1 <= |s|
  {
    if StartsGreedy(s) then (GreedyGroup(NameAfter(s)), |NameAfter(s)| + 2) else ([s[0]], 1)
  }

  /** The first substitution, `re.sub(r'(<\w+>)', r'(?P\1.+)', s)`. */
  function SubGreedy(s: string): string
    decreases |s|
  {
    if |s| == 0 then "" else GreedyStep(s).0 + SubGreedy(s[GreedyStep(s).1..])
  }

  /** One step of the second substitution at the start of `s`. */
  function LazyStep(s: string): (r: (string, nat))
    requires |s| > 0
    ensures 0 < r.1 <= |s|
  {
    if StartsLazy(s) then (LazyGroup(NameAfter(s)), |NameAfter(s)| + 3) else ([s[0]], 1)
  }

  /** The second substitution, `re.sub(r'(<\w+)\?>', r'(?P\1>.+?)', s)`. */
  function SubLazy(s: string): string
    decreases |s|
  {
    if |s| == 0 then "" else LazyStep(s).0 + SubLazy(s[LazyStep(s).1..])
  }

  /** The named groups of a successful match (`groupdict()`), by group name. */
  type Captures = map<string, string>

  /** `_get_route_pattern`: the regular expression a route template compiles to. */
  function GetRoutePattern(route: string): string {
    "^" + SubLazy(SubGreedy(route)) + "$"
  }

  /** One element of a template: a literal character or a placeholder. */
  datatype Piece = Text(c: char) | Greedy(name: string) | Lazy(name: string)

  /** Template syntax of one piece. */
  function PieceSource(p: Piece): string {
    match p
    case Text(c) => [c]
    case Greedy(n) => "<" + n + ">"
    case Lazy(n) => "<" + n + "?>"
  }

  /** Regular-expression text of one piece. */
  function PieceRegex(p: Piece): string {
    match p
    case Text(c) => [c]
    case Greedy(n) => GreedyGroup(n)
    case Lazy(n) => LazyGroup(n)
  }

  /** A placeholder piece carries a non-empty word as its name. */
  predicate WellFormedPiece(p: Piece) {
    !p.Text? ==> |p.name| > 0 && IsWord(p.name)
  }

  /** The piece `s` starts with, and how many characters of `s` it spans. */
  function Head(s: string): (r: (Piece, nat))
    requires |s| > 0
    ensures 0 < r.1 <= |s|
    ensures PieceSource(r.0) == s[..r.1]
    ensures WellFormedPiece(r.0)
  {
    var n := NameAfter(s);
    if StartsGreedy(s) then
      assert s[..|n| + 2] == "<" + n + ">";
      (Greedy(n), |n| + 2)
    else if StartsLazy(s) then
      assert s[..|n| + 3] == "<" + n + "?>";
      (Lazy(n), |n| + 3)
    else (Text(s[0]), 1)
  }

  /** Reads a template left to right into pieces. */
  function Tokenize(s: string): seq<Piece>
    decreases |s|
  {
    if |s| == 0 then [] else [Head(s).0] + Tokenize(s[Head(s).1..])
  }

  /** The template text a sequence of pieces spells. */
  function Unparse(ps: seq<Piece>): string {
    if ps == [] then "" else PieceSource(ps[0]) + Unparse(ps[1..])
  }

  /** The regular expression a sequence of pieces stands for, before anchoring. */
  function Rewrite(ps: seq<Piece>): string {
    if ps == [] then "" else PieceRegex(ps[0]) + Rewrite(ps[1..])
  }

  // ---------------------------------------------------------------------------
  // The reading loses nothing and yields only well-formed placeholders.

  lemma UnparseCons(p: Piece, ps: seq<Piece>)
    ensures Unparse([p] + ps) == PieceSource(p) + Unparse(ps)
  {
    assert ([p] + ps)[1..] == ps;
  }

  lemma RewriteCons(p: Piece, ps: seq<Piece>)
    ensures Rewrite([p] + ps) == PieceRegex(p) + Rewrite(ps)
  {
    assert ([p] + ps)[1..] == ps;
  }

  /** The reading starts with the head piece, which spells the start of the template. */
  lemma TokenizeHead(s: string)
    requires |s| > 0
    ensures Tokenize(s) == [Head(s).0] + Tokenize(s[Head(s).1..])
    ensures s == PieceSource(Head(s).0) + s[Head(s).1..]
  {
    assert s == s[..Head(s).1] + s[Head(s).1..];
  }

  /** Reading a template and spelling the pieces back gives the template. */
  lemma {:induction false} TokenizeRoundTrip(s: string)
    ensures Unparse(Tokenize(s)) == s
    decreases |s|
  {
    if |s| > 0 {
      var (p, len) := Head(s);
      var rest := s[len..];
      TokenizeHead(s);
      TokenizeRoundTrip(rest);
      UnparseCons(p, Tokenize(rest));
    }
  }

  /** Every placeholder the reading yields is named by a non-empty word. */
  lemma {:induction false} TokenizeWellFormed(s: string)
    ensures forall i :: 0 <= i < |Tokenize(s)| ==> WellFormedPiece(Tokenize(s)[i])
    decreases |s|
  {
    if |s| > 0 {
      TokenizeWellFormed(s[Head(s).1..]);
    }
  }

  // ---------------------------------------------------------------------------
  // The two passes together rewrite exactly the placeholders of the reading.

  /** A piece after the first pass: greedy placeholders rewritten, lazy ones still in template syntax. */
  function HalfPiece(p: Piece): string {
    if p.Greedy? then GreedyGroup(p.name) else PieceSource(p)
  }

  function HalfRewrite(ps: seq<Piece>): string {
    if ps == [] then "" else HalfPiece(ps[0]) + HalfRewrite(ps[1..])
  }

  lemma HalfRewriteCons(p: Piece, ps: seq<Piece>)
    ensures HalfRewrite([p] + ps) == HalfPiece(p) + HalfRewrite(ps)
  {
    assert ([p] + ps)[1..] == ps;
  }

  /** A word followed by nothing or by a non-word character is exactly what `\w+` consumes. */
  lemma {:induction false} WordRunOf(w: string, rest: string)
    requires IsWord(w)
    requires rest == [] || !IsWordChar(rest[0])
    ensures WordRun(w + rest) == |w|
    decreases |w|
  {
    if |w| > 0 {
      assert (w + rest)[1..] == w[1..] + rest;
      WordRunOf(w[1..], rest);
    } else {
      assert w + rest == rest;
    }
  }

  /** Neither pass changes text that holds no `<`. */
  lemma {:induction false} SubGreedyCopies(u: string, r: string)
    requires '<' !in u
    ensures SubGreedy(u + r) == u + SubGreedy(r)
    decreases |u|
  {
    if |u| > 0 {
      var y, t := u + r, u[1..];
      assert y[0] == u[0] && u[0] in u;
      SubGreedyCopiesHead(y);
      assert y[1..] == t + r;
      SubGreedyCopies(t, r);
      ConcatAssoc([u[0]], t, SubGreedy(r));
      assert [u[0]] + t == u;
    } else {
      assert u + r == r;
    }
  }

  lemma {:induction false} SubLazyCopies(u: string, r: string)
    requires '<' !in u
    ensures SubLazy(u + r) == u + SubLazy(r)
    decreases |u|
  {
    if |u| > 0 {
      var y, t := u + r, u[1..];
      assert y[0] == u[0] && u[0] in u;
      SubLazyCopiesHead(y);
      assert y[1..] == t + r;
      SubLazyCopies(t, r);
      ConcatAssoc([u[0]], t, SubLazy(r));
      assert [u[0]] + t == u;
    } else {
      assert u + r == r;
    }
  }

  lemma {:induction false} HalfRewriteCopies(u: string, r: string)
    requires '<' !in u
    ensures HalfRewrite(Tokenize(u + r)) == u + HalfRewrite(Tokenize(r))
    decreases |u|
  {
    if |u| > 0 {
      assert (u + r)[0] == u[0];
      assert (u + r)[1..] == u[1..] + r;
      HalfRewriteCopies(u[1..], r);
      HalfRewriteCons(Text(u[0]), Tokenize(u[1..] + r));
      assert u == [u[0]] + u[1..];
    } else {
      assert u + r == r;
    }
  }

  lemma NoOpenInWord(w: string)
    requires IsWord(w)
    ensures '<' !in w
  {
  }

  /** A sequence of pieces is the reading of the text it spells. */
  predicate IsReading(ps: seq<Piece>) {
    Tokenize(Unparse(ps)) == ps
  }

  /** The reading of a template is a reading. */
  lemma TokenizeIsReading(s: string)
    ensures IsReading(Tokenize(s))
  {
    TokenizeRoundTrip(s);
  }

  /** The tail of a reading is a reading, and the head piece is what `Head` finds. */
  lemma ReadingTail(p: Piece, ps: seq<Piece>)
    requires IsReading([p] + ps)
    ensures Head(PieceSource(p) + Unparse(ps)).0 == p
    ensures IsReading(ps)
  {
    var x := PieceSource(p) + Unparse(ps);
    UnparseCons(p, ps);
    assert |x| > 0;
    var (q, len) := Head(x);
    assert Tokenize(x) == [q] + Tokenize(x[len..]);
    assert q == p && Tokenize(x[len..]) == ps by {
      assert ([p] + ps)[0] == p && ([p] + ps)[1..] == ps;
    }
    assert |PieceSource(p)| == len;
    assert x[len..] == Unparse(ps);
  }

  /** Where no placeholder starts, the first pass copies one character. */
  lemma SubGreedyCopiesHead(y: string)
    requires |y| > 0 && !StartsGreedy(y)
    ensures SubGreedy(y) == [y[0]] + SubGreedy(y[1..])
  {
  }

  /** The first pass copies a `<name?>` it meets. */
  lemma LazyPlaceholderSurvives(n: string, x: string)
    requires IsWord(n)
    ensures SubGreedy(("<" + n + "?>") + x) == ("<" + n + "?>") + SubGreedy(x)
  {
    var y := ("<" + n + "?>") + x;
    var u := n + "?>";
    LazySourceSplit(n, x);
    WordRunOf(n, "?>" + x);
    SubGreedyCopiesHead(y);
    NoOpenInWord(n);
    assert '<' !in u;
    SubGreedyCopies(u, x);
    ConcatAssoc("<", u, SubGreedy(x));
  }

  lemma LazySourceSplit(n: string, x: string)
    ensures (("<" + n + "?>") + x)[0] == '<'
    ensures (("<" + n + "?>") + x)[1..] == n + ("?>" + x) == (n + "?>") + x
    ensures "<" + n + "?>" == "<" + (n + "?>")
  {
  }

  /** The first pass rewrites a `<name>` it meets. */
  lemma GreedyPlaceholderRewritten(n: string, x: string)
    requires Head(("<" + n + ">") + x).0 == Greedy(n)
    ensures SubGreedy(("<" + n + ">") + x) == GreedyGroup(n) + SubGreedy(x)
  {
    var y := ("<" + n + ">") + x;
    assert GreedyStep(y) == (GreedyGroup(n), |n| + 2);
    assert y[|n| + 2..] == x;
  }

  /** The first pass emits one piece of a reading at a time. */
  lemma SubGreedyStep(p: Piece, x: string)
    requires Head(PieceSource(p) + x).0 == p
    ensures SubGreedy(PieceSource(p) + x) == HalfPiece(p) + SubGreedy(x)
  {
    match p
    case Greedy(n) =>
      GreedyPlaceholderRewritten(n, x);
    case Lazy(n) =>
      assert WellFormedPiece(Head(PieceSource(p) + x).0);
      LazyPlaceholderSurvives(n, x);
    case Text(c) =>
      var y := [c] + x;
      SubGreedyCopiesHead(y);
      assert y[1..] == x;
  }

  /** The first pass rewrites the greedy placeholders of a reading and nothing else. */
  lemma {:induction false} SubGreedyUnparse(ps: seq<Piece>)
    requires IsReading(ps)
    ensures SubGreedy(Unparse(ps)) == HalfRewrite(ps)
  {
    if ps != [] {
      var p, rest := ps[0], ps[1..];
      assert ps == [p] + rest;
      ReadingTail(p, rest);
      SubGreedyUnparse(rest);
      UnparseCons(p, rest);
      HalfRewriteCons(p, rest);
      SubGreedyStep(p, Unparse(rest));
    }
  }

  /** What the text after the first pass starts with, given what the template starts with. */
  lemma HalfRewriteHead(x: string)
    ensures |x| == 0 <==> |HalfRewrite(Tokenize(x))| == 0
    ensures |x| > 0 && x[0] != '<' ==> HalfRewrite(Tokenize(x)) == [x[0]] + HalfRewrite(Tokenize(x[1..]))
    ensures |x| > 0 && x[0] == '<' ==> HalfRewrite(Tokenize(x))[0] in {'<', '('}
  {
    if |x| > 0 {
      HalfRewriteCons(Head(x).0, Tokenize(x[Head(x).1..]));
    }
  }

  /**
   * The first pass neither starts a word where the template has none nor
   * makes up a `?>` that the template does not start with.
   */
  lemma HalfRewriteOpening(r: string)
    ensures var z := HalfRewrite(Tokenize(r));
            (r == [] || !IsWordChar(r[0])) ==> (z == [] || !IsWordChar(z[0]))
    ensures var z := HalfRewrite(Tokenize(r));
            (|z| > 1 && z[0] == '?' && z[1] == '>') ==> (|r| > 1 && r[0] == '?' && r[1] == '>')
  {
    HalfRewriteHead(r);
    if |r| > 0 {
      HalfRewriteHead(r[1..]);
    }
  }

  /** A `<` that opens a lazy placeholder after the first pass opened one in the template already. */
  lemma NoLazyAfterFirstPass(s: string)
    requires |s| > 0 && s[0] == '<'
    ensures StartsLazy("<" + HalfRewrite(Tokenize(s[1..]))) ==> StartsLazy(s)
  {
    var x := s[1..];
    var k := WordRun(x);
    var w, r := x[..k], x[k..];
    assert x == w + r;
    NoOpenInWord(w);
    HalfRewriteCopies(w, r);
    var z := HalfRewrite(Tokenize(r));
    HalfRewriteOpening(r);
    var y := "<" + HalfRewrite(Tokenize(x));
    assert y[1..] == w + z;
    WordRunOf(w, z);
    if StartsLazy(y) {
      assert y[k + 1] == z[0] && y[k + 2] == z[1];
      assert s[k + 1] == r[0] && s[k + 2] == r[1];
    }
  }

  /** `<name>` followed by anything does not start a lazy placeholder. */
  lemma NotLazyBeforeClose(n: string, x: string)
    requires IsWord(n)
    ensures !StartsLazy("<" + n + (">" + x))
  {
    var y := "<" + n + (">" + x);
    assert y[1..] == n + (">" + x);
    WordRunOf(n, ">" + x);
  }

  /** The second pass copies a `<name>` it meets. */
  lemma ClosedNameSurvives(n: string, x: string)
    requires IsWord(n)
    ensures SubLazy("<" + n + (">" + x)) == "<" + n + ">" + SubLazy(x)
  {
    var y := "<" + n + (">" + x);
    var u := n + ">";
    NotLazyBeforeClose(n, x);
    SubLazyCopiesHead(y);
    ClosedSourceSplit(n, x);
    NoOpenInWord(n);
    assert '<' !in u;
    SubLazyCopies(u, x);
    ConcatAssoc("<", u, SubLazy(x));
  }

  lemma ClosedSourceSplit(n: string, x: string)
    ensures ("<" + n + (">" + x))[0] == '<'
    ensures ("<" + n + (">" + x))[1..] == (n + ">") + x
    ensures "<" + n + ">" == "<" + (n + ">")
  {
  }

  lemma ConcatAssoc(a: string, b: string, c: string)
    ensures a + (b + c) == (a + b) + c
  {
  }

  /** A rewritten greedy group survives the second pass unchanged. */
  lemma GreedyGroupSplit(n: string, x: string)
    ensures GreedyGroup(n) + x == "(?P" + ("<" + n + (">" + (".+)" + x)))
  {
  }

  lemma GreedyGroupJoin(n: string, y: string)
    ensures "(?P" + ("<" + n + ">" + (".+)" + y)) == GreedyGroup(n) + y
  {
  }

  lemma GreedyGroupSurvives(n: string, x: string)
    requires IsWord(n)
    ensures SubLazy(GreedyGroup(n) + x) == GreedyGroup(n) + SubLazy(x)
  {
    var open, close := "(?P", ".+)";
    assert '<' !in open && '<' !in close;
    var rest := "<" + n + (">" + (close + x));
    GreedyGroupSplit(n, x);
    SubLazyCopies(open, rest);
    ClosedNameSurvives(n, close + x);
    SubLazyCopies(close, x);
    GreedyGroupJoin(n, SubLazy(x));
  }

  /** A lazy placeholder left by the first pass is rewritten by the second. */
  lemma LazyPlaceholderRewritten(n: string, x: string)
    requires IsWord(n) && |n| > 0
    ensures SubLazy("<" + n + "?>" + x) == LazyGroup(n) + SubLazy(x)
  {
    var y := "<" + n + "?>" + x;
    assert y[1..] == n + ("?>" + x);
    WordRunOf(n, "?>" + x);
    assert NameAfter(y) == n;
    assert y[|n| + 3..] == x;
  }

  /** The second pass copies a character that does not open a lazy placeholder. */
  lemma SubLazyCopiesHead(y: string)
    requires |y| > 0 && !StartsLazy(y)
    ensures SubLazy(y) == [y[0]] + SubLazy(y[1..])
  {
  }

  /** The second pass emits one piece of a reading at a time. */
  lemma SubLazyStep(p: Piece, ps: seq<Piece>)
    requires IsReading([p] + ps)
    ensures SubLazy(HalfPiece(p) + HalfRewrite(ps)) == PieceRegex(p) + SubLazy(HalfRewrite(ps))
  {
    ReadingTail(p, ps);
    var x := HalfRewrite(ps);
    match p
    case Greedy(n) =>
      assert WellFormedPiece(Head(PieceSource(p) + Unparse(ps)).0);
      GreedyGroupSurvives(n, x);
    case Lazy(n) =>
      assert WellFormedPiece(Head(PieceSource(p) + Unparse(ps)).0);
      LazyPlaceholderRewritten(n, x);
    case Text(c) =>
      var y := [c] + x;
      if c == '<' {
        var s := PieceSource(p) + Unparse(ps);
        assert s[1..] == Unparse(ps);
        NoLazyAfterFirstPass(s);
        assert y == "<" + HalfRewrite(Tokenize(s[1..]));
      }
      SubLazyCopiesHead(y);
      assert y[1..] == x;
  }

  /** The second pass rewrites the lazy placeholders the first left, and nothing else. */
  lemma {:induction false} SubLazyHalf(ps: seq<Piece>)
    requires IsReading(ps)
    ensures SubLazy(HalfRewrite(ps)) == Rewrite(ps)
  {
    if ps != [] {
      var p, rest := ps[0], ps[1..];
      assert ps == [p] + rest;
      ReadingTail(p, rest);
      SubLazyHalf(rest);
      HalfRewriteCons(p, rest);
      RewriteCons(p, rest);
      SubLazyStep(p, rest);
    }
  }

  /**
   * The compiled pattern is the anchored rewrite of the template's reading:
   * each `<name>` becomes `(?P<name>.+)`, each `<name?>` becomes
   * `(?P<name>.+?)`, every other character is copied, and the whole is
   * wrapped in `^` and `$`.
   */
  lemma GetRoutePatternRewrites(route: string)
    ensures GetRoutePattern(route) == "^" + Rewrite(Tokenize(route)) + "$"
  {
    var ps := Tokenize(route);
    TokenizeRoundTrip(route);
    TokenizeIsReading(route);
    SubGreedyUnparse(ps);
    SubLazyHalf(ps);
  }

  // ---------------------------------------------------------------------------
  // Reading templates piece by piece.

  /** The pieces of literal text `cs`. */
  function Texts(cs: string): (ps: seq<Piece>)
    ensures |ps| == |cs|
    ensures forall i :: 0 <= i < |cs| ==> ps[i] == Text(cs[i])
  {
    if cs == "" then [] else [Text(cs[0])] + Texts(cs[1..])
  }

  lemma TokenizeText(c: char, x: string)
    requires c != '<'
    ensures Tokenize([c] + x) == [Text(c)] + Tokenize(x)
  {
    assert ([c] + x)[1..] == x;
  }

  /** Text without `<` is read as literal characters. */
  lemma {:induction false} TokenizeTexts(cs: string, x: string)
    requires '<' !in cs
    ensures Tokenize(cs + x) == Texts(cs) + Tokenize(x)
    decreases |cs|
  {
    if cs != "" {
      assert cs + x == [cs[0]] + (cs[1..] + x);
      TokenizeText(cs[0], cs[1..] + x);
      TokenizeTexts(cs[1..], x);
      assert Texts(cs) == [Text(cs[0])] + Texts(cs[1..]);
    } else {
      assert cs + x == x;
    }
  }

  /** `<name>` is read as a greedy placeholder. */
  lemma TokenizeGreedy(n: string, x: string)
    requires IsWord(n) && |n| > 0
    ensures Tokenize(("<" + n + ">") + x) == [Greedy(n)] + Tokenize(x)
  {
    var s := ("<" + n + ">") + x;
    assert s[1..] == n + (">" + x);
    WordRunOf(n, ">" + x);
    assert s[|n| + 2..] == x;
  }

  /** `<name?>` is read as a lazy placeholder. */
  lemma TokenizeLazy(n: string, x: string)
    requires IsWord(n) && |n| > 0
    ensures Tokenize(("<" + n + "?>") + x) == [Lazy(n)] + Tokenize(x)
  {
    var s := ("<" + n + "?>") + x;
    assert s[1..] == n + ("?>" + x);
    WordRunOf(n, "?>" + x);
    assert s[|n| + 3..] == x;
  }
}
