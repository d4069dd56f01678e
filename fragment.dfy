/**
 * Matching a compiled route template against message text.
 *
 * A compiled template (see module Pattern) uses only a small part of Python's
 * regular-expression language: literal characters, greedy groups
 * `(?P<name>.+)`, lazy groups `(?P<name>.+?)`, and the anchors `^` and `$`.
 * This module reads such an expression back into pieces (`ParseRegex`) and
 * matches the pieces with the backtracking order Python's `re.match` uses:
 * a greedy group tries its longest capture first, a lazy group its shortest
 * first; `.` matches any character but a newline, and `$` matches at the end
 * of the text or just before a final newline.  The result is the match's
 * `groupdict()`, or `None` when there is no match.
 *
 * The routers take matching as a parameter; `FragmentMatch` is one matcher
 * for them, exact on every template whose literal text holds no regular
 * expression syntax.
 */
module TemplateMatch {
  import opened Options
  import opened Pattern

  /** Characters with a special meaning in Python's regular-expression syntax. */
  predicate IsMeta(c: char) {
    || c == '.' || c == '^' || c == '$' || c == '*' || c == '+' || c == '?' || c == '\\'
    || c == '{' || c == '}' || c == '[' || c == ']' || c == '(' || c == ')' || c == '|'
  }

  /** A piece whose literal text means itself in a regular expression. */
  predicate PlainPiece(p: Piece) {
    p.Text? ==> !IsMeta(p.c)
  }

  /** A template with no regular-expression syntax in its literal text. */
  predicate PlainTemplate(ps: seq<Piece>) {
    forall i :: 0 <= i < |ps| ==> PlainPiece(ps[i]) && WellFormedPiece(ps[i])
  }

  /** `s` starts with `(?P<` followed by a word and then `tail`. */
  predicate StartsGroup(s: string, tail: string) {
    && |s| >= 4 && s[..4] == "(?P<"
    && var k := WordRun(s[4..]);
       k > 0 && 4 + k + |tail| <= |s| && s[4 + k..4 + k + |tail|] == tail
  }

  /** A group recognised by `StartsGroup` spells its word name between `(?P<` and `tail`. */
  lemma GroupSpelled(s: string, tail: string)
    requires StartsGroup(s, tail)
    ensures var k := WordRun(s[4..]);
            && IsWord(s[4..4 + k]) && |s[4..4 + k]| > 0
            && s[..4 + k + |tail|] == "(?P<" + s[4..4 + k] + tail
  {
    var k := WordRun(s[4..]);
    var l := 4 + k + |tail|;
    assert s[4..4 + k] == s[4..][..k];
    assert s[..l] == s[..4] + s[4..4 + k] + s[4 + k..l];
  }

  /** The piece a regular expression starts with and the characters it spans, if it is one of ours. */
  function RegexHead(s: string): (r: Option<(Piece, nat)>)
    requires |s| > 0
    ensures r.Some? ==> 0 < r.value.1 <= |s| && PieceRegex(r.value.0) == s[..r.value.1]
    ensures r.Some? ==> PlainPiece(r.value.0) && WellFormedPiece(r.value.0)
  {
    var k := if |s| >= 4 then WordRun(s[4..]) else 0;
    if StartsGroup(s, ">.+)") then
      var n := s[4..4 + k];
      GroupSpelled(s, ">.+)");
      Some((Greedy(n), 4 + k + 4))
    else if StartsGroup(s, ">.+?)") then
      var n := s[4..4 + k];
      GroupSpelled(s, ">.+?)");
      Some((Lazy(n), 4 + k + 5))
    else if IsMeta(s[0]) then None
    else Some((Text(s[0]), 1))
  }

  /** Reads the body of a compiled template (without its anchors) back into pieces. */
  function ParseRegex(s: string): (r: Option<seq<Piece>>)
    ensures r.Some? ==> Rewrite(r.value) == s && PlainTemplate(r.value)
    decreases |s|
  {
    if |s| == 0 then Some([])
    else match RegexHead(s)
      case None => None
      case Some((p, len)) =>
        match ParseRegex(s[len..])
        case None => None
        case Some(ps) =>
          ParseStep(s, p, len, ps);
          Some([p] + ps)
  }

  /** A head piece and the reading of the rest spell the whole text. */
  lemma ParseStep(s: string, p: Piece, len: nat, ps: seq<Piece>)
    requires 0 < len <= |s| && PieceRegex(p) == s[..len] && PlainPiece(p) && WellFormedPiece(p)
    requires Rewrite(ps) == s[len..] && PlainTemplate(ps)
    ensures Rewrite([p] + ps) == s && PlainTemplate([p] + ps)
  {
    RewriteCons(p, ps);
    assert s[..len] + s[len..] == s;
    PlainCons(p, ps);
  }

  lemma PlainCons(p: Piece, ps: seq<Piece>)
    requires PlainPiece(p) && WellFormedPiece(p) && PlainTemplate(ps)
    ensures PlainTemplate([p] + ps)
  {
    forall i | 0 <= i < |[p] + ps|
      ensures PlainPiece(([p] + ps)[i]) && WellFormedPiece(([p] + ps)[i])
    {
      if i > 0 {
        assert ([p] + ps)[i] == ps[i - 1];
      }
    }
  }

  /** A group with word name `n` and body `tail` is recognised at the start of its text. */
  lemma StartsGroupOf(n: string, tail: string, x: string)
    requires IsWord(n) && |n| > 0 && |tail| > 0 && !IsWordChar(tail[0])
    ensures WordRun((("(?P<" + n + tail) + x)[4..]) == |n|
    ensures StartsGroup(("(?P<" + n + tail) + x, tail)
  {
    var s := ("(?P<" + n + tail) + x;
    assert s[4..] == n + (tail + x);
    WordRunOf(n, tail + x);
    assert s[4 + |n|..4 + |n| + |tail|] == tail;
  }

  lemma RegexHeadGreedy(n: string, x: string)
    requires IsWord(n) && |n| > 0
    ensures RegexHead(GreedyGroup(n) + x) == Some((Greedy(n), |GreedyGroup(n)|))
  {
    var s := GreedyGroup(n) + x;
    StartsGroupOf(n, ">.+)", x);
    assert s[4..4 + |n|] == n;
  }

  lemma RegexHeadLazy(n: string, x: string)
    requires IsWord(n) && |n| > 0
    ensures RegexHead(LazyGroup(n) + x) == Some((Lazy(n), |LazyGroup(n)|))
  {
    var s := LazyGroup(n) + x;
    var k := 4 + |n|;
    StartsGroupOf(n, ">.+?)", x);
    assert s[k + 3] == s[k..k + 5][3] == '?';
    SliceDiffers(s, k, ">.+)", 3);
    assert s[4..4 + |n|] == n;
  }

  /** A slice that differs from `t` at position `j` is not `t`. */
  lemma SliceDiffers(s: string, i: nat, t: string, j: nat)
    requires j < |t| && i + j < |s| && s[i + j] != t[j]
    ensures i + |t| > |s| || s[i..i + |t|] != t
  {
    if i + |t| <= |s| {
      assert s[i..i + |t|][j] == s[i + j];
    }
  }

  /** The first piece of a plain template is read back from its regular expression. */
  lemma RegexHeadOf(p: Piece, x: string)
    requires PlainPiece(p) && WellFormedPiece(p)
    ensures RegexHead(PieceRegex(p) + x) == Some((p, |PieceRegex(p)|))
  {
    match p
    case Text(c) =>
      assert (PieceRegex(p) + x)[0] == c;
    case Greedy(n) =>
      RegexHeadGreedy(n, x);
    case Lazy(n) =>
      RegexHeadLazy(n, x);
  }

  /** Reading the regular expression of a plain template gives the template back. */
  lemma {:induction false} ParseRewrite(ps: seq<Piece>)
    requires PlainTemplate(ps)
    ensures ParseRegex(Rewrite(ps)) == Some(ps)
  {
    if ps != [] {
      var p, rest := ps[0], ps[1..];
      assert ps == [p] + rest;
      assert PlainTemplate(rest) by {
        forall i | 0 <= i < |rest| ensures PlainPiece(rest[i]) && WellFormedPiece(rest[i]) {
          assert rest[i] == ps[i + 1];
        }
      }
      ParseRewrite(rest);
      RewriteCons(p, rest);
      RegexHeadOf(p, Rewrite(rest));
      var s := PieceRegex(p) + Rewrite(rest);
      assert s[|PieceRegex(p)|..] == Rewrite(rest);
    }
  }

  /**
   * Two plain templates compile to the same pattern only if they are the same
   * template: the router's duplicate check compares exactly the template text.
   */
  lemma RoutePatternInjective(r1: string, r2: string)
    requires PlainTemplate(Tokenize(r1)) && PlainTemplate(Tokenize(r2))
    requires GetRoutePattern(r1) == GetRoutePattern(r2)
    ensures r1 == r2
  {
    GetRoutePatternRewrites(r1);
    GetRoutePatternRewrites(r2);
    var a, b := Rewrite(Tokenize(r1)), Rewrite(Tokenize(r2));
    assert a == ("^" + a + "$")[1..|a| + 1];
    assert b == ("^" + b + "$")[1..|b| + 1];
    ParseRewrite(Tokenize(r1));
    ParseRewrite(Tokenize(r2));
    TokenizeRoundTrip(r1);
    TokenizeRoundTrip(r2);
  }

  // ---------------------------------------------------------------------------
  // Matching.

  /** How many leading characters of `s` the pattern `.` can match: those before the first newline. */
  function LineRun(s: string): (k: nat)
    ensures k <= |s|
    ensures forall i :: 0 <= i < k ==> s[i] != '\n'
    ensures k < |s| ==> s[k] == '\n'
  {
    if |s| > 0 && s[0] != '\n' then
      var k := 1 + LineRun(s[1..]);
      assert forall i :: 1 <= i < k ==> s[i] == s[1..][i - 1];
      k
    else 0
  }

  /** Where `$` matches: at the end of the text, or just before a final newline. */
  predicate AtEnd(s: string) {
    s == "" || s == "\n"
  }

  /** `re.match` of the pieces `ps` followed by `$` against `s`, with its `groupdict()`. */
  function Match(ps: seq<Piece>, s: string): Option<Captures>
    decreases |ps|, |s| + 1
  {
    if ps == [] then
      if AtEnd(s) then Some(map[]) else None
    else
      match ps[0]
      case Text(c) => if |s| > 0 && s[0] == c then Match(ps[1..], s[1..]) else None
      case Greedy(n) => Longest(n, ps[1..], s, LineRun(s))
      case Lazy(n) => Shortest(n, ps[1..], s, 1)
  }

  /** A greedy group `n` followed by `rest`: captures of length `i`, `i - 1`, ..., 1 are tried in turn. */
  function Longest(n: string, rest: seq<Piece>, s: string, i: nat): Option<Captures>
    requires i <= LineRun(s)
    decreases |rest| + 1, i
  {
    if i == 0 then None
    else
      match Match(rest, s[i..])
      case Some(m) => Some(m[n := s[..i]])
      case None => Longest(n, rest, s, i - 1)
  }

  /** A lazy group `n` followed by `rest`: captures of length `i`, `i + 1`, ... are tried in turn. */
  function Shortest(n: string, rest: seq<Piece>, s: string, i: nat): Option<Captures>
    requires 1 <= i <= LineRun(s) + 1
    decreases |rest| + 1, LineRun(s) + 1 - i
  {
    if i > LineRun(s) then None
    else
      match Match(rest, s[i..])
      case Some(m) => Some(m[n := s[..i]])
      case None => Shortest(n, rest, s, i + 1)
  }

  /**
   * Group names Python accepts in one pattern: each is an identifier (a word
   * that does not start with a digit), and no name is used twice.
   */
  predicate ValidGroups(ps: seq<Piece>) {
    && (forall i :: 0 <= i < |ps| && !ps[i].Text? ==> |ps[i].name| > 0 && !('0' <= ps[i].name[0] <= '9'))
    && (forall i, j :: 0 <= i < j < |ps| && !ps[i].Text? && !ps[j].Text? ==> ps[i].name != ps[j].name)
  }

  /**
   * A matcher for the routers: `re.match(pattern, text).groupdict()` for an
   * anchored pattern built from literal text and named groups, `None` for a
   * text it does not match or a pattern outside that fragment.
   */
  function FragmentMatch(pattern: string, text: string): Option<Captures> {
    if |pattern| >= 2 && pattern[0] == '^' && pattern[|pattern| - 1] == '$' then
      match ParseRegex(pattern[1..|pattern| - 1])
      case Some(ps) => if ValidGroups(ps) then Match(ps, text) else None
      case None => None
    else None
  }

  /** On a plain template with valid group names, the matcher matches the template's pieces. */
  lemma FragmentMatchesTemplate(route: string, text: string)
    requires PlainTemplate(Tokenize(route)) && ValidGroups(Tokenize(route))
    ensures FragmentMatch(GetRoutePattern(route), text) == Match(Tokenize(route), text)
  {
    GetRoutePatternRewrites(route);
    var body := Rewrite(Tokenize(route));
    assert body == ("^" + body + "$")[1..|body| + 1];
    ParseRewrite(Tokenize(route));
  }

  // ---------------------------------------------------------------------------
  // How the search chooses a capture.

  lemma MatchText(c: char, ps: seq<Piece>, s: string)
    ensures Match([Text(c)] + ps, s) == if |s| > 0 && s[0] == c then Match(ps, s[1..]) else None
  {
    assert ([Text(c)] + ps)[1..] == ps;
  }

  lemma MatchGreedy(n: string, ps: seq<Piece>, s: string)
    ensures Match([Greedy(n)] + ps, s) == Longest(n, ps, s, LineRun(s))
  {
    assert ([Greedy(n)] + ps)[1..] == ps;
  }

  lemma MatchLazy(n: string, ps: seq<Piece>, s: string)
    ensures Match([Lazy(n)] + ps, s) == Shortest(n, ps, s, 1)
  {
    assert ([Lazy(n)] + ps)[1..] == ps;
  }

  /**
   * A greedy group takes the longest capture after which the rest of the
   * pattern matches.
   */
  lemma {:induction false} LongestPicksLongest(n: string, rest: seq<Piece>, s: string, i: nat, j: nat)
    requires 1 <= j <= i <= LineRun(s)
    requires Match(rest, s[j..]).Some?
    requires forall k :: j < k <= i ==> Match(rest, s[k..]).None?
    ensures Longest(n, rest, s, i) == Some(Match(rest, s[j..]).value[n := s[..j]])
    decreases i
  {
    LongestStep(n, rest, s, i);
    if i > j {
      LongestPicksLongest(n, rest, s, i - 1, j);
    }
  }

  /** One step of the greedy search: the capture of length `i`, or else the shorter ones. */
  lemma LongestStep(n: string, rest: seq<Piece>, s: string, i: nat)
    requires 1 <= i <= LineRun(s)
    ensures Longest(n, rest, s, i)
         == if Match(rest, s[i..]).Some? then Some(Match(rest, s[i..]).value[n := s[..i]]) else Longest(n, rest, s, i - 1)
  {
  }

  /** A greedy group fails exactly when no capture lets the rest of the pattern match. */
  lemma {:induction false} LongestFails(n: string, rest: seq<Piece>, s: string, i: nat)
    requires i <= LineRun(s)
    ensures Longest(n, rest, s, i).None? <==> forall k :: 1 <= k <= i ==> Match(rest, s[k..]).None?
    decreases i
  {
    if i > 0 {
      LongestFails(n, rest, s, i - 1);
    }
  }

  /**
   * A lazy group takes the shortest capture after which the rest of the
   * pattern matches.
   */
  lemma {:induction false} ShortestPicksShortest(n: string, rest: seq<Piece>, s: string, i: nat, j: nat)
    requires 1 <= i <= j <= LineRun(s)
    requires Match(rest, s[j..]).Some?
    requires forall k :: i <= k < j ==> Match(rest, s[k..]).None?
    ensures Shortest(n, rest, s, i) == Some(Match(rest, s[j..]).value[n := s[..j]])
    decreases j - i
  {
    ShortestStep(n, rest, s, i);
    if i < j {
      ShortestPicksShortest(n, rest, s, i + 1, j);
    }
  }

  /** One step of the lazy search: the capture of length `i`, or else the longer ones. */
  lemma ShortestStep(n: string, rest: seq<Piece>, s: string, i: nat)
    requires 1 <= i <= LineRun(s)
    ensures Shortest(n, rest, s, i)
         == if Match(rest, s[i..]).Some? then Some(Match(rest, s[i..]).value[n := s[..i]]) else Shortest(n, rest, s, i + 1)
  {
  }

  /** A lazy group fails exactly when no capture lets the rest of the pattern match. */
  lemma {:induction false} ShortestFails(n: string, rest: seq<Piece>, s: string, i: nat)
    requires 1 <= i <= LineRun(s) + 1
    ensures Shortest(n, rest, s, i).None? <==> forall k :: i <= k <= LineRun(s) ==> Match(rest, s[k..]).None?
    decreases LineRun(s) + 1 - i
  {
    if i <= LineRun(s) {
      ShortestFails(n, rest, s, i + 1);
    }
  }

  /** Literal text matches itself and nothing else. */
  lemma {:induction false} MatchTexts(cs: string, ps: seq<Piece>, x: string)
    ensures Match(Texts(cs) + ps, cs + x) == Match(ps, x)
    decreases |cs|
  {
    if cs != "" {
      assert Texts(cs) + ps == [Text(cs[0])] + (Texts(cs[1..]) + ps);
      MatchText(cs[0], Texts(cs[1..]) + ps, cs + x);
      assert (cs + x)[1..] == cs[1..] + x;
      MatchTexts(cs[1..], ps, x);
    } else {
      assert Texts(cs) + ps == ps && cs + x == x;
    }
  }

  lemma {:induction false} MatchTextsMismatch(cs: string, ps: seq<Piece>, y: string)
    requires !(|cs| <= |y| && y[..|cs|] == cs)
    ensures Match(Texts(cs) + ps, y).None?
    decreases |cs|
  {
    assert y[..0] == [];
    TextsCons(cs, ps);
    MatchText(cs[0], Texts(cs[1..]) + ps, y);
    if |y| > 0 && y[0] == cs[0] {
      PrefixTail(cs, y);
      MatchTextsMismatch(cs[1..], ps, y[1..]);
    }
  }

  lemma TextsCons(cs: string, ps: seq<Piece>)
    requires cs != ""
    ensures Texts(cs) + ps == [Text(cs[0])] + (Texts(cs[1..]) + ps)
  {
  }

  /** A text that starts like `cs` and goes on like the rest of `cs` starts with `cs`. */
  lemma PrefixTail(cs: string, y: string)
    requires |cs| > 0 && |y| > 0 && y[0] == cs[0]
    ensures (|cs| - 1 <= |y| - 1 && y[1..][..|cs| - 1] == cs[1..]) ==> (|cs| <= |y| && y[..|cs|] == cs)
  {
    if |cs| <= |y| {
      assert y[..|cs|] == [y[0]] + y[1..][..|cs| - 1];
      assert cs == [cs[0]] + cs[1..];
    }
  }

  /** A final greedy group captures the whole of a one-line remainder. */
  lemma MatchLastGreedy(n: string, s: string)
    requires 0 < |s| == LineRun(s)
    ensures Match([Greedy(n)], s) == Some(map[n := s])
  {
    MatchGreedy(n, [], s);
    assert [Greedy(n)] + [] == [Greedy(n)];
    assert s[|s|..] == "" && s[..|s|] == s;
    assert Match([], s[|s|..]) == Some(map[]);
    assert Longest(n, [], s, |s|) == Some(map[][n := s]);
  }

  /** `.` matches every character of a text without newlines. */
  lemma {:induction false} LineRunWhole(s: string)
    requires '\n' !in s
    ensures LineRun(s) == |s|
    decreases |s|
  {
    if |s| > 0 {
      assert '\n' !in s[1..] by {
        assert forall i :: 0 <= i < |s[1..]| ==> s[1..][i] == s[i + 1];
      }
      LineRunWhole(s[1..]);
    }
  }

  // ---------------------------------------------------------------------------
  // A match spells the text.

  /** The names of the groups of a template. */
  function Names(ps: seq<Piece>): set<string> {
    if ps == [] then {} else (if ps[0].Text? then {} else {ps[0].name}) + Names(ps[1..])
  }

  /** The text a template spells once each group is replaced by its capture in `m`. */
  function Fill(ps: seq<Piece>, m: Captures): string {
    if ps == [] then ""
    else (if ps[0].Text? then [ps[0].c] else if ps[0].name in m then m[ps[0].name] else "") + Fill(ps[1..], m)
  }

  /** A name no group of a template carries is not among its names. */
  lemma {:induction false} NotInNames(ps: seq<Piece>, n: string)
    requires forall i :: 0 <= i < |ps| && !ps[i].Text? ==> ps[i].name != n
    ensures n !in Names(ps)
  {
    if ps != [] {
      assert forall i :: 0 <= i < |ps[1..]| ==> ps[1..][i] == ps[i + 1];
      NotInNames(ps[1..], n);
    }
  }

  /** The rest of a template with valid groups has valid groups, none named like its first. */
  lemma ValidGroupsTail(ps: seq<Piece>)
    requires ps != [] && ValidGroups(ps)
    ensures ValidGroups(ps[1..])
    ensures !ps[0].Text? ==> ps[0].name !in Names(ps[1..])
  {
    var rest := ps[1..];
    assert forall i :: 0 <= i < |rest| ==> rest[i] == ps[i + 1];
    if !ps[0].Text? {
      NotInNames(rest, ps[0].name);
    }
  }

  /** Filling a template ignores the captures of names it does not have. */
  lemma {:induction false} FillIgnores(ps: seq<Piece>, m: Captures, n: string, x: string)
    requires n !in Names(ps)
    ensures Fill(ps, m[n := x]) == Fill(ps, m)
  {
    if ps != [] {
      FillIgnores(ps[1..], m, n, x);
    }
  }

  /** When the greedy search succeeds, it has split the text after a capture of some length `j`. */
  lemma {:induction false} LongestSplit(n: string, rest: seq<Piece>, s: string, i: nat) returns (j: nat)
    requires i <= LineRun(s)
    requires Longest(n, rest, s, i).Some?
    ensures 1 <= j <= i && Match(rest, s[j..]).Some?
    ensures Longest(n, rest, s, i).value == Match(rest, s[j..]).value[n := s[..j]]
    decreases i
  {
    if Match(rest, s[i..]).Some? {
      j := i;
    } else {
      j := LongestSplit(n, rest, s, i - 1);
    }
  }

  /** When the lazy search succeeds, it has split the text after a capture of some length `j`. */
  lemma {:induction false} ShortestSplit(n: string, rest: seq<Piece>, s: string, i: nat) returns (j: nat)
    requires 1 <= i <= LineRun(s) + 1
    requires Shortest(n, rest, s, i).Some?
    ensures i <= j <= LineRun(s) && Match(rest, s[j..]).Some?
    ensures Shortest(n, rest, s, i).value == Match(rest, s[j..]).value[n := s[..j]]
    decreases LineRun(s) + 1 - i
  {
    if Match(rest, s[i..]).Some? {
      j := i;
    } else {
      j := ShortestSplit(n, rest, s, i + 1);
    }
  }

  /** What `$` lets through after the text spelled so far is kept by a prefix. */
  lemma SpellsAfter(a: string, f: string, t: string)
    requires f == t || f + "\n" == t
    ensures a + f == a + t || (a + f) + "\n" == a + t
  {
    ConcatAssoc(a, f, "\n");
  }

  /**
   * A successful match spells the text: its captures are exactly the
   * template's groups, and putting them in place of the groups gives back the
   * text, up to the one final newline `$` lets through.
   */
  lemma {:induction false} MatchSound(ps: seq<Piece>, s: string)
    requires ValidGroups(ps) && Match(ps, s).Some?
    ensures Match(ps, s).value.Keys == Names(ps)
    ensures Fill(ps, Match(ps, s).value) == s || Fill(ps, Match(ps, s).value) + "\n" == s
    decreases |ps|, 1
  {
    if ps != [] {
      if ps[0].Text? {
        TextSound(ps, s);
      } else {
        GroupSound(ps, s);
      }
    }
  }

  /** `MatchSound` for a template that starts with a literal character. */
  lemma {:induction false} TextSound(ps: seq<Piece>, s: string)
    requires ps != [] && ps[0].Text? && ValidGroups(ps) && Match(ps, s).Some?
    ensures Match(ps, s).value.Keys == Names(ps)
    ensures Fill(ps, Match(ps, s).value) == s || Fill(ps, Match(ps, s).value) + "\n" == s
    decreases |ps|, 0
  {
    ValidGroupsTail(ps);
    var c, rest, m := ps[0].c, ps[1..], Match(ps, s).value;
    assert m == Match(rest, s[1..]).value;
    MatchSound(rest, s[1..]);
    SpellsAfter([c], Fill(rest, m), s[1..]);
    assert s == [c] + s[1..];
  }

  /** `MatchSound` for a template that starts with a group. */
  lemma {:induction false} GroupSound(ps: seq<Piece>, s: string)
    requires ps != [] && !ps[0].Text? && ValidGroups(ps) && Match(ps, s).Some?
    ensures Match(ps, s).value.Keys == Names(ps)
    ensures Fill(ps, Match(ps, s).value) == s || Fill(ps, Match(ps, s).value) + "\n" == s
    decreases |ps|, 0
  {
    ValidGroupsTail(ps);
    var rest := ps[1..];
    assert ps == [ps[0]] + rest;
    var j: nat;
    if ps[0].Greedy? {
      j := LongestSplit(ps[0].name, rest, s, LineRun(s));
    } else {
      j := ShortestSplit(ps[0].name, rest, s, 1);
    }
    MatchSound(rest, s[j..]);
    AfterGroup(ps[0], rest, s, j, Match(rest, s[j..]).value);
  }

  /** A group that captured the first `j` characters, followed by a rest that spells the remainder. */
  lemma AfterGroup(p: Piece, rest: seq<Piece>, s: string, j: nat, m: Captures)
    requires !p.Text? && p.name !in Names(rest) && j <= |s|
    requires m.Keys == Names(rest) && (Fill(rest, m) == s[j..] || Fill(rest, m) + "\n" == s[j..])
    ensures m[p.name := s[..j]].Keys == Names([p] + rest)
    ensures Fill([p] + rest, m[p.name := s[..j]]) == s || Fill([p] + rest, m[p.name := s[..j]]) + "\n" == s
  {
    var ps := [p] + rest;
    assert ps[0] == p && ps[1..] == rest;
    FillIgnores(rest, m, p.name, s[..j]);
    SpellsAfter(s[..j], Fill(rest, m), s[j..]);
    assert s == s[..j] + s[j..];
  }

  /** A text spelled from a prefix `a` splits after `a`. */
  lemma SplitSpelled(a: string, f: string, t: string)
    requires a + f == t || (a + f) + "\n" == t
    ensures |a| <= |t| && t[..|a|] == a && (t[|a|..] == f || t[|a|..] == f + "\n")
  {
    ConcatAssoc(a, f, "\n");
  }

  /** `.` matches at least the first `j` characters when none of them is a newline. */
  lemma LineRunAtLeast(s: string, x: string)
    requires |x| <= |s| && s[..|x|] == x && '\n' !in x
    ensures |x| <= LineRun(s)
  {
    assert forall i :: 0 <= i < |x| ==> s[i] == x[i];
  }

  /**
   * The search misses no match: whenever some captures, non-empty and
   * without newlines, spell the text when put in place of the template's
   * groups, the match succeeds.
   */
  lemma {:induction false} MatchComplete(ps: seq<Piece>, s: string, m: Captures)
    requires Names(ps) <= m.Keys
    requires forall n :: n in m ==> |m[n]| > 0 && '\n' !in m[n]
    requires Fill(ps, m) == s || Fill(ps, m) + "\n" == s
    ensures Match(ps, s).Some?
    decreases |ps|
  {
    if ps != [] {
      var rest := ps[1..];
      var f := Fill(rest, m);
      match ps[0]
      case Text(c) =>
        SplitSpelled([c], f, s);
        MatchComplete(rest, s[1..], m);
      case Greedy(n) =>
        var x := m[n];
        SplitSpelled(x, f, s);
        MatchComplete(rest, s[|x|..], m);
        LineRunAtLeast(s, x);
        LongestFails(n, rest, s, LineRun(s));
      case Lazy(n) =>
        var x := m[n];
        SplitSpelled(x, f, s);
        MatchComplete(rest, s[|x|..], m);
        LineRunAtLeast(s, x);
        ShortestFails(n, rest, s, 1);
    }
  }
}
