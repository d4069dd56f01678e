/** The matching examples of the router's tests, proved for the template matcher. */
module TemplateExamples {
  import opened Options
  import opened Pattern
  import opened TemplateMatch

  // ---------------------------------------------------------------------------
  // Two templates from the router's tests: `<a> to <b>` and `<a?> to <b>`.

  const GreedyRoute := "<a> to <b>"
  const LazyRoute := "<a?> to <b>"
  const One := "1"
  const Two := "2"
  const Three := "3"
  const To := " to "

  /** `1 to 2` */
  const ShortText := One + (To + Two)

  /** `2 to 3` */
  const LongTail := Two + (To + Three)

  /** `1 to 2 to 3` */
  const LongText := One + (To + LongTail)

  /** What both templates have after their first group. */
  function ToB(): seq<Piece> {
    Texts(To) + [Greedy("b")]
  }

  lemma RouteSplits()
    ensures GreedyRoute == ("<" + "a" + ">") + (To + (("<" + "b" + ">") + ""))
    ensures LazyRoute == ("<" + "a" + "?>") + (To + (("<" + "b" + ">") + ""))
  {
  }

  /** Literal text followed by `<b>` reads as the text's characters and a greedy group. */
  lemma TextThenGroup(mid: string, b: string)
    requires IsWord(b) && |b| > 0 && '<' !in mid
    ensures Tokenize(mid + (("<" + b + ">") + "")) == Texts(mid) + [Greedy(b)]
  {
    TokenizeGreedy(b, "");
    TokenizeTexts(mid, ("<" + b + ">") + "");
    assert Tokenize("") == [];
    assert [Greedy(b)] + [] == [Greedy(b)];
  }

  /** The pieces of the two templates. */
  lemma RoutePieces()
    ensures Tokenize(GreedyRoute) == [Greedy("a")] + ToB()
    ensures Tokenize(LazyRoute) == [Lazy("a")] + ToB()
  {
    RouteSplits();
    TextThenGroup(To, "b");
    TokenizeGreedy("a", To + (("<" + "b" + ">") + ""));
    TokenizeLazy("a", To + (("<" + "b" + ">") + ""));
  }

  /** ` to ` is literal text without regular-expression syntax. */
  lemma ToPlain()
    ensures forall i :: 0 <= i < |To| ==> !IsMeta(To[i])
  {
  }

  /** Where the pieces of a group, literal text and a second group sit. */
  lemma GroupTextGroupPieces(p: Piece, cs: string, b: string)
    ensures |[p] + (Texts(cs) + [Greedy(b)])| == |cs| + 2
    ensures ([p] + (Texts(cs) + [Greedy(b)]))[0] == p
    ensures ([p] + (Texts(cs) + [Greedy(b)]))[|cs| + 1] == Greedy(b)
    ensures forall i :: 1 <= i <= |cs| ==> ([p] + (Texts(cs) + [Greedy(b)]))[i] == Text(cs[i - 1])
  {
  }

  /** A group, literal text and a second group of another name form a plain template with valid names. */
  lemma GroupTextGroupValid(p: Piece, cs: string, b: string)
    requires !p.Text? && IsWord(p.name) && |p.name| > 0 && !('0' <= p.name[0] <= '9')
    requires forall i :: 0 <= i < |cs| ==> !IsMeta(cs[i])
    requires IsWord(b) && |b| > 0 && !('0' <= b[0] <= '9') && p.name != b
    ensures PlainTemplate([p] + (Texts(cs) + [Greedy(b)])) && ValidGroups([p] + (Texts(cs) + [Greedy(b)]))
  {
    GroupTextGroupPieces(p, cs, b);
    ShapeValid([p] + (Texts(cs) + [Greedy(b)]), p, cs, b);
  }

  /** The shape `GroupTextGroupPieces` describes is plain and has valid names. */
  lemma ShapeValid(ps: seq<Piece>, p: Piece, cs: string, b: string)
    requires !p.Text? && IsWord(p.name) && |p.name| > 0 && !('0' <= p.name[0] <= '9')
    requires forall i :: 0 <= i < |cs| ==> !IsMeta(cs[i])
    requires IsWord(b) && |b| > 0 && !('0' <= b[0] <= '9') && p.name != b
    requires |ps| == |cs| + 2 && ps[0] == p && ps[|cs| + 1] == Greedy(b)
    requires forall i :: 1 <= i <= |cs| ==> ps[i] == Text(cs[i - 1])
    ensures PlainTemplate(ps) && ValidGroups(ps)
  {
    forall i | 0 <= i < |ps|
      ensures PlainPiece(ps[i]) && WellFormedPiece(ps[i])
      ensures !ps[i].Text? ==> i == 0 || i == |cs| + 1
    {
      if 1 <= i <= |cs| {
        assert ps[i] == Text(cs[i - 1]);
      }
    }
    forall i, j | 0 <= i < j < |ps| && !ps[i].Text? && !ps[j].Text?
      ensures ps[i].name != ps[j].name
    {
      assert i == 0 && j == |cs| + 1;
    }
  }

  lemma GreedyRouteValid()
    ensures PlainTemplate([Greedy("a")] + ToB()) && ValidGroups([Greedy("a")] + ToB())
  {
    ToPlain();
    GroupTextGroupValid(Greedy("a"), To, "b");
  }

  lemma LazyRouteValid()
    ensures PlainTemplate([Lazy("a")] + ToB()) && ValidGroups([Lazy("a")] + ToB())
  {
    ToPlain();
    GroupTextGroupValid(Lazy("a"), To, "b");
  }

  /** `<a> to <b>` matches a text as its greedy first group does. */
  lemma GreedyRouteMatch(text: string)
    ensures FragmentMatch(GetRoutePattern(GreedyRoute), text) == Longest("a", ToB(), text, LineRun(text))
  {
    RoutePieces();
    GreedyRouteValid();
    FragmentMatchesTemplate(GreedyRoute, text);
    MatchGreedy("a", ToB(), text);
  }

  /** `<a?> to <b>` matches a text as its lazy first group does. */
  lemma LazyRouteMatch(text: string)
    ensures FragmentMatch(GetRoutePattern(LazyRoute), text) == Shortest("a", ToB(), text, 1)
  {
    RoutePieces();
    LazyRouteValid();
    FragmentMatchesTemplate(LazyRoute, text);
    MatchLazy("a", ToB(), text);
  }

  /** After ` to `, the final greedy group takes the rest of a one-line text. */
  lemma ToBMatches(x: string)
    requires 0 < |x| && '\n' !in x
    ensures Match(ToB(), To + x) == Some(map["b" := x])
  {
    LineRunWhole(x);
    MatchTexts(To, [Greedy("b")], x);
    MatchLastGreedy("b", x);
  }

  lemma ShortTextFacts()
    ensures LineRun(ShortText) == |ShortText| == 6
    ensures ShortText[1..] == To + Two && ShortText[..1] == One
    ensures ShortText[2] == 't' && ShortText[3] == 'o'
  {
    assert '\n' !in ShortText;
    LineRunWhole(ShortText);
  }

  lemma LongTextFacts()
    ensures LineRun(LongText) == |LongText| == 11
    ensures LongText[1..] == To + LongTail && LongText[..1] == One
    ensures LongText[6..] == To + Three && LongText[..6] == ShortText
    ensures LongText[7] == 't' && LongText[8] == 'o'
  {
    assert LongText == ShortText + (To + Three);
    assert '\n' !in LongText;
    LineRunWhole(LongText);
  }

  /** Captures of two groups, whichever is recorded first. */
  lemma TwoCaptures(a: string, b: string, x: string, y: string)
    requires a != b
    ensures map[b := y][a := x] == map[a := x, b := y]
  {
  }

  /** No capture of more than `1 to 2` leaves a text that ` to <b>` matches. */
  lemma LongTextNoLongerCapture(k: nat)
    requires 6 < k <= |LongText|
    ensures Match(ToB(), LongText[k..]).None?
  {
    LongTextFacts();
    assert |LongText[k..]| < 4 || LongText[k..][0] != ' ';
    MatchTextsMismatch(To, [Greedy("b")], LongText[k..]);
  }

  lemma LongTextNoLongerCaptures()
    ensures forall k :: 6 < k <= |LongText| ==> Match(ToB(), LongText[k..]).None?
  {
    forall k | 6 < k <= |LongText|
      ensures Match(ToB(), LongText[k..]).None?
    {
      LongTextNoLongerCapture(k);
    }
  }

  /** No capture of more than `1` leaves a text that ` to <b>` matches. */
  lemma ShortTextNoLongerCapture(k: nat)
    requires 1 < k <= |ShortText|
    ensures Match(ToB(), ShortText[k..]).None?
  {
    ShortTextFacts();
    assert |ShortText[k..]| < 4 || ShortText[k..][0] != ' ';
    MatchTextsMismatch(To, [Greedy("b")], ShortText[k..]);
  }

  lemma ShortTextNoLongerCaptures()
    ensures forall k :: 1 < k <= |ShortText| ==> Match(ToB(), ShortText[k..]).None?
  {
    forall k | 1 < k <= |ShortText|
      ensures Match(ToB(), ShortText[k..]).None?
    {
      ShortTextNoLongerCapture(k);
    }
  }

  lemma GreedyLongSearch()
    ensures Longest("a", ToB(), LongText, LineRun(LongText)) == Some(map["a" := ShortText, "b" := Three])
  {
    LongTextFacts();
    ToBMatches(Three);
    LongTextNoLongerCaptures();
    LongestPicksLongest("a", ToB(), LongText, LineRun(LongText), 6);
    TwoCaptures("a", "b", ShortText, Three);
  }

  lemma GreedyShortSearch()
    ensures Longest("a", ToB(), ShortText, LineRun(ShortText)) == Some(map["a" := One, "b" := Two])
  {
    ShortTextFacts();
    ToBMatches(Two);
    ShortTextNoLongerCaptures();
    LongestPicksLongest("a", ToB(), ShortText, LineRun(ShortText), 1);
    TwoCaptures("a", "b", One, Two);
  }

  lemma LazyLongSearch()
    ensures Shortest("a", ToB(), LongText, 1) == Some(map["a" := One, "b" := LongTail])
  {
    LongTextFacts();
    assert '\n' !in LongTail;
    ToBMatches(LongTail);
    ShortestPicksShortest("a", ToB(), LongText, 1, 1);
    TwoCaptures("a", "b", One, LongTail);
  }

  lemma LazyShortSearch()
    ensures Shortest("a", ToB(), ShortText, 1) == Some(map["a" := One, "b" := Two])
  {
    ShortTextFacts();
    ToBMatches(Two);
    ShortestPicksShortest("a", ToB(), ShortText, 1, 1);
    TwoCaptures("a", "b", One, Two);
  }

  /** A greedy first group takes `1 to 2` of `1 to 2 to 3`, and `1` of `1 to 2`. */
  lemma GreedyTemplateExamples()
    ensures FragmentMatch(GetRoutePattern(GreedyRoute), LongText) == Some(map["a" := ShortText, "b" := Three])
    ensures FragmentMatch(GetRoutePattern(GreedyRoute), ShortText) == Some(map["a" := One, "b" := Two])
  {
    GreedyRouteMatch(LongText);
    GreedyLongSearch();
    GreedyRouteMatch(ShortText);
    GreedyShortSearch();
  }

  /** A lazy first group takes `1` of both `1 to 2 to 3` and `1 to 2`. */
  lemma LazyTemplateExamples()
    ensures FragmentMatch(GetRoutePattern(LazyRoute), LongText) == Some(map["a" := One, "b" := LongTail])
    ensures FragmentMatch(GetRoutePattern(LazyRoute), ShortText) == Some(map["a" := One, "b" := Two])
  {
    LazyRouteMatch(LongText);
    LazyLongSearch();
    LazyRouteMatch(ShortText);
    LazyShortSearch();
  }

  // ---------------------------------------------------------------------------
  // A command with one argument: `find <user>`.

  const FindRoute := "find <user>"
  const FindPrefix := "find "
  const User := "user"
  const TestUser := "testuser"

  /** `find testuser` */
  const FindText := FindPrefix + TestUser

  /** `find ` with no argument. */
  const BareFind := FindPrefix

  /** The pieces of `find <user>`. */
  function FindTemplate(): seq<Piece> {
    Texts(FindPrefix) + [Greedy(User)]
  }

  lemma FindPieces()
    ensures Tokenize(FindRoute) == FindTemplate()
  {
    assert FindRoute == FindPrefix + (("<" + User + ">") + "");
    TextThenGroup(FindPrefix, User);
  }

  /** Literal text without regular-expression syntax followed by one well-named group is plain and valid. */
  lemma TextThenGroupValid(cs: string, n: string)
    requires forall i :: 0 <= i < |cs| ==> !IsMeta(cs[i])
    requires IsWord(n) && |n| > 0 && !('0' <= n[0] <= '9')
    ensures PlainTemplate(Texts(cs) + [Greedy(n)]) && ValidGroups(Texts(cs) + [Greedy(n)])
  {
    var ps := Texts(cs) + [Greedy(n)];
    forall i | 0 <= i < |ps|
      ensures PlainPiece(ps[i]) && WellFormedPiece(ps[i])
      ensures !ps[i].Text? ==> i == |cs|
    {
      if i < |cs| {
        assert ps[i] == Texts(cs)[i] == Text(cs[i]);
      } else {
        assert ps[i] == Greedy(n);
      }
    }
  }

  lemma FindValid()
    ensures PlainTemplate(FindTemplate()) && ValidGroups(FindTemplate())
  {
    TextThenGroupValid(FindPrefix, User);
  }

  /** After `find `, the group captures the rest of a one-line text. */
  lemma FindCaptures(x: string)
    requires 0 < |x| && '\n' !in x
    ensures Match(FindTemplate(), FindPrefix + x) == Some(map[User := x])
  {
    MatchTexts(FindPrefix, [Greedy(User)], x);
    LineRunWhole(x);
    MatchLastGreedy(User, x);
  }

  /** The group needs at least one character. */
  lemma FindNeedsUser()
    ensures Match(FindTemplate(), FindPrefix + "").None?
  {
    MatchTexts(FindPrefix, [Greedy(User)], "");
    MatchGreedy(User, [], "");
  }

  /** A route whose pieces are `ps` matches a text as `ps` do. */
  lemma MatchesAsPieces(route: string, ps: seq<Piece>, text: string)
    requires Tokenize(route) == ps && PlainTemplate(ps) && ValidGroups(ps)
    ensures FragmentMatch(GetRoutePattern(route), text) == Match(ps, text)
  {
    FragmentMatchesTemplate(route, text);
  }

  lemma FindMatchesUser()
    ensures FragmentMatch(GetRoutePattern(FindRoute), FindText) == Some(map[User := TestUser])
  {
    FindPieces();
    FindValid();
    TestUserOneLine();
    FindCaptures(TestUser);
    MatchesAsPieces(FindRoute, FindTemplate(), FindText);
  }

  lemma TestUserOneLine()
    ensures 0 < |TestUser| && '\n' !in TestUser
  {
  }


  lemma FindRejectsBare()
    ensures FragmentMatch(GetRoutePattern(FindRoute), BareFind).None?
  {
    FindPieces();
    FindValid();
    FindNeedsUser();
    assert BareFind == FindPrefix + "";
    MatchesAsPieces(FindRoute, FindTemplate(), BareFind);
  }

  /** `find <user>` captures the user of `find testuser`, and does not match a bare `find `. */
  lemma FindExamples()
    ensures FragmentMatch(GetRoutePattern(FindRoute), FindText) == Some(map[User := TestUser])
    ensures FragmentMatch(GetRoutePattern(FindRoute), BareFind).None?
  {
    FindMatchesUser();
    FindRejectsBare();
  }

  // ---------------------------------------------------------------------------
  // A template without placeholders: `ping`.

  /** A literal template without regular-expression syntax matches its own text, capturing nothing. */
  lemma LiteralMatchesItself(cs: string)
    requires forall i :: 0 <= i < |cs| ==> !IsMeta(cs[i]) && cs[i] != '<'
    ensures FragmentMatch(GetRoutePattern(cs), cs) == Some(map[])
  {
    assert '<' !in cs by {
      forall i | 0 <= i < |cs| ensures cs[i] != '<' { }
    }
    TokenizeTexts(cs, "");
    assert cs + "" == cs && Texts(cs) + [] == Texts(cs);
    FragmentMatchesTemplate(cs, cs);
    MatchTexts(cs, [], "");
  }

  /** A literal template rejects every text that does not start with it. */
  lemma LiteralRejectsOther(cs: string, y: string)
    requires forall i :: 0 <= i < |cs| ==> !IsMeta(cs[i]) && cs[i] != '<'
    requires !(|cs| <= |y| && y[..|cs|] == cs)
    ensures FragmentMatch(GetRoutePattern(cs), y).None?
  {
    assert '<' !in cs by {
      forall i | 0 <= i < |cs| ensures cs[i] != '<' { }
    }
    TokenizeTexts(cs, "");
    assert cs + "" == cs && Texts(cs) + [] == Texts(cs);
    FragmentMatchesTemplate(cs, y);
    MatchTextsMismatch(cs, [], y);
  }
}
