/** How a command line is cut into lexemes: it is their spellings with white space around them, as
    much as one likes, and some where two of them would otherwise run together. */
module ShellLexemes {
  import opened ShellSpec
  import opened ShellGrammar

  predicate ValidWord(w: string) {
    w != [] && forall k :: 0 <= k < |w| ==> IsWordChar(w[k])
  }

  function Spelling(x: Lexeme): string {
    match x
    case Sym(c) => [c]
    case App => ">>"
    case Wd(w) => w
  }

  predicate Proper(x: Lexeme) {
    match x
    case Sym(c) => IsSymbol(c)
    case App => true
    case Wd(w) => ValidWord(w)
  }

  /** Without white space between them, x and y would be taken for something else. */
  predicate RunTogether(x: Lexeme, y: Lexeme) {
    (x.Wd? && y.Wd?) || (x == Sym('>') && (y == Sym('>') || y.App?))
  }

  predicate AllWhite(g: string) {
    forall k :: 0 <= k < |g| ==> IsWhite(g[k])
  }

  /** gaps[k] stands before ls[k], and the last one at the end. */
  predicate Spaced(ls: seq<Lexeme>, gaps: seq<string>) {
    && |gaps| == |ls| + 1 && (forall k :: 0 <= k < |gaps| ==> AllWhite(gaps[k])) && (forall k :: 0 <= k < |ls| ==> Proper(ls[k]))
    && forall k :: 0 < k < |ls| && RunTogether(ls[k - 1], ls[k]) ==> gaps[k] != ""
  }

  function Spell(ls: seq<Lexeme>, gaps: seq<string>): string
    requires |gaps| == |ls| + 1
  {
    if ls == [] then gaps[0] else gaps[0] + (Spelling(ls[0]) + Spell(ls[1..], gaps[1..]))
  }

  // ----- a text so spelled is cut as it should be

  /** What comes behind a lexeme does not run on with it. */
  predicate Apart(x: Lexeme, rest: string) {
    rest == "" || ((x.Wd? ==> !IsWordChar(rest[0])) && (x == Sym('>') ==> rest[0] != '>'))
  }

  lemma SpacedTail(ls: seq<Lexeme>, gaps: seq<string>)
    requires Spaced(ls, gaps) && ls != []
    ensures Spaced(ls[1..], gaps[1..]) && Apart(ls[0], Spell(ls[1..], gaps[1..]))
  {
    var ls', gaps' := ls[1..], gaps[1..];
    assert forall k :: 0 <= k < |ls'| ==> ls'[k] == ls[k + 1];
    assert forall k :: 0 <= k < |gaps'| ==> gaps'[k] == gaps[k + 1];
    assert AllWhite(gaps[1]);
    if gaps[1] != "" {
      assert IsWhite(gaps[1][0]);
    } else if ls' != [] {
      assert Proper(ls[1]) && !RunTogether(ls[0], ls[1]);
      var rest := Spell(ls', gaps');
      assert rest == Spelling(ls'[0]) + Spell(ls'[1..], gaps'[1..]);
    }
  }

  lemma {:induction false} SkipGap(s: string, i: nat, g: string, rest: string)
    requires i <= |s| && s[i..] == g + rest && AllWhite(g) && (rest == "" || !IsWhite(rest[0]))
    ensures SkipWhite(s, i) == i + |g|
    decreases |g|
  {
    assert |s| - i == |g| + |rest|;
    if g == "" {
      assert rest != "" ==> s[i] == s[i..][0] == rest[0];
    } else {
      assert s[i] == s[i..][0] == g[0];
      assert s[i + 1..] == s[i..][1..] == g[1..] + rest;
      SkipGap(s, i + 1, g[1..], rest);
    }
  }

  predicate Has(s: string, i: nat, w: string) {
    i + |w| <= |s| && s[i..i + |w|] == w
  }

  lemma HasChar(s: string, i: nat, w: string, k: nat)
    requires Has(s, i, w) && k < |w|
    ensures i + k < |s| && s[i + k] == w[k]
  {
    assert s[i..i + |w|][k] == s[i + k];
  }

  lemma WordToken(s: string, i: nat, w: string)
    requires Has(s, i, w) && ValidWord(w) && (i + |w| < |s| ==> !IsWordChar(s[i + |w|]))
    ensures SkipWhite(s, i) == i && !Peek(s, i, "|)&;") && !Peek(s, i, "<>") && !Peek(s, i, "(")
    ensures GetToken(s, i) == Token(Word, Span(i, i + |w|), SkipWhite(s, i + |w|))
  {
    forall k | i <= k < i + |w|
      ensures IsWordChar(s[k])
    {
      HasChar(s, i, w, k - i);
    }
    assert WordEnd(s, i) == i + |w|;
  }

  lemma Suffix(s: string, a: nat, x: string, rest: string)
    requires a <= |s| && s[a..] == x + rest
    ensures var b := a + |x|;
            && b <= |s| && s[b..] == rest && Has(s, a, x) && (rest == "" <==> b == |s|) && (rest != "" ==> s[b] == rest[0])
  {
    var b := a + |x|;
    assert |s| - a == |x| + |rest|;
    assert s[b..] == s[a..][|x|..] == rest;
    assert s[a..b] == s[a..][..|x|] == x;
    assert b < |s| ==> s[b] == s[b..][0];
  }

  /** gettoken at a lexeme. */
  lemma OneLexeme(s: string, a: nat, x: Lexeme, rest: string)
    requires a <= |s| && s[a..] == Spelling(x) + rest && Proper(x) && Apart(x, rest)
    ensures SkipWhite(s, a) == a && !GetToken(s, a).kind.End? && LexemeOf(s, GetToken(s, a)) == x
    ensures var b := a + |Spelling(x)|;
            b <= |s| && s[b..] == rest && GetToken(s, a).next == SkipWhite(s, b)
  {
    Suffix(s, a, Spelling(x), rest);
    LexemeAt(s, a, x);
  }

  lemma LexemeAt(s: string, a: nat, x: Lexeme)
    requires Has(s, a, Spelling(x)) && Proper(x)
    requires var b := a + |Spelling(x)|; b < |s| ==> (x.Wd? ==> !IsWordChar(s[b])) && (x == Sym('>') ==> s[b] != '>')
    ensures SkipWhite(s, a) == a && !GetToken(s, a).kind.End? && LexemeOf(s, GetToken(s, a)) == x
    ensures GetToken(s, a).next == SkipWhite(s, a + |Spelling(x)|)
  {
    NotWhite(x);
    HasChar(s, a, Spelling(x), 0);
    match x
    case Sym(c) =>
    case App => HasChar(s, a, Spelling(x), 1);
    case Wd(w) => WordToken(s, a, w);
  }

  lemma {:induction false} SpelledCut(s: string, i: nat, ls: seq<Lexeme>, gaps: seq<string>)
    requires i <= |s| && Spaced(ls, gaps) && s[i..] == Spell(ls, gaps)
    ensures Lexemes(s, i) == ls
    decreases |ls|
  {
    hide GetToken, SkipWhite, Spelling, Proper, Apart, AllWhite, RunTogether;
    var g := gaps[0];
    assert AllWhite(g);
    if ls == [] {
      assert g == g + "";
      SkipGap(s, i, g, "");
      Suffix(s, i, g, "");
      EndToken(s, i);
    } else {
      SpacedTail(ls, gaps);
      var x, tail := ls[0], Spell(ls[1..], gaps[1..]);
      assert Proper(x);
      FirstCut(s, i, g, x, tail);
      SpelledCut(s, i + |g| + |Spelling(x)|, ls[1..], gaps[1..]);
    }
  }

  lemma {:induction false} FirstCut(s: string, i: nat, g: string, x: Lexeme, tail: string)
    requires i <= |s| && AllWhite(g) && Proper(x) && s[i..] == g + (Spelling(x) + tail) && Apart(x, tail)
    ensures var b := i + |g| + |Spelling(x)|;
            b <= |s| && s[b..] == tail && Lexemes(s, i) == [x] + Lexemes(s, b)
  {
    hide GetToken, SkipWhite, Apart, Proper, AllWhite, Spelling, LexemeOf;
    var rest := Spelling(x) + tail;
    NotWhite(x);
    SkipGap(s, i, g, rest);
    Suffix(s, i, g, rest);
    var a := i + |g|;
    OneLexeme(s, a, x, tail);
    LexSkip(s, i);
    LexSkip(s, a + |Spelling(x)|);
  }

  lemma NotWhite(x: Lexeme)
    requires Proper(x)
    ensures Spelling(x) != "" && !IsWhite(Spelling(x)[0])
  {
  }

  lemma EndToken(s: string, i: nat)
    requires i <= |s| && SkipWhite(s, i) == |s|
    ensures GetToken(s, i).kind.End?
  {
  }

  // ----- and every text is spelled so

  /** A token is the spelling of its lexeme, as long as can be. */
  lemma TokenSpelled(s: string, i: nat)
    requires i <= |s| && !GetToken(s, i).kind.End?
    ensures var t := GetToken(s, i);
            var x := LexemeOf(s, t);
            && t.span.start == SkipWhite(s, i) && s[t.span.start..t.span.end] == Spelling(x) && Proper(x) && Apart(x, s[t.span.end..])
            && t.next == SkipWhite(s, t.span.end)
  {
    var t := GetToken(s, i);
    assert t.span.end < |s| ==> s[t.span.end..][0] == s[t.span.end];
  }

  lemma {:induction false} SkippedWhite(s: string, i: nat)
    requires i <= |s|
    ensures AllWhite(s[i..SkipWhite(s, i)])
    decreases |s| - i
  {
    if i < |s| && IsWhite(s[i]) {
      SkippedWhite(s, i + 1);
      assert s[i..SkipWhite(s, i)] == [s[i]] + s[i + 1..SkipWhite(s, i)];
    }
  }

  lemma {:induction false} Spelled(s: string, i: nat) returns (gaps: seq<string>)
    requires i <= |s|
    ensures Spaced(Lexemes(s, i), gaps) && Spell(Lexemes(s, i), gaps) == s[i..] && gaps[0] == s[i..SkipWhite(s, i)]
    decreases |s| - i
  {
    hide GetToken, SkipWhite;
    var t, a := GetToken(s, i), SkipWhite(s, i);
    SkippedWhite(s, i);
    if t.kind.End? {
      EndsAt(s, i);
      gaps := [s[i..a]];
    } else {
      TokenSpelled(s, i);
      var x, b := LexemeOf(s, t), t.span.end;
      LexSkip(s, b);
      NotWhite(x);
      var tail := Spelled(s, b);
      gaps := [s[i..a]] + tail;
      var ls, ls' := Lexemes(s, i), Lexemes(s, b);
      assert ls == [x] + ls' && ls[1..] == ls' && gaps[1..] == tail;
      Pieces(s, i, a, b);
      KeptApart(s, b, x, ls', tail);
      forall k | 0 < k < |ls| && RunTogether(ls[k - 1], ls[k])
        ensures gaps[k] != ""
      {
        if k > 1 {
          assert ls[k - 1] == ls'[k - 2] && ls[k] == ls'[k - 1];
          assert gaps[k] == tail[k - 1];
        }
      }
    }
  }

  lemma Pieces(s: string, i: nat, a: nat, b: nat)
    requires i <= a <= b <= |s|
    ensures s[i..] == s[i..a] + (s[a..b] + s[b..])
  {
  }

  lemma EndsAt(s: string, i: nat)
    requires i <= |s| && GetToken(s, i).kind.End?
    ensures SkipWhite(s, i) == |s|
  {
  }

  /** Behind a token something that would run on with it has white space in front. */
  lemma KeptApart(s: string, b: nat, x: Lexeme, ls: seq<Lexeme>, gaps: seq<string>)
    requires b <= |s| && Apart(x, s[b..]) && Spaced(ls, gaps) && Spell(ls, gaps) == s[b..]
    ensures ls != [] && RunTogether(x, ls[0]) ==> gaps[0] != ""
  {
    if ls != [] && gaps[0] == "" {
      assert Proper(ls[0]);
      NotWhite(ls[0]);
      assert s[b..] == Spelling(ls[0]) + Spell(ls[1..], gaps[1..]);
      assert s[b..][0] == Spelling(ls[0])[0];
    }
  }

  /** A line has the lexemes ls exactly if it is spelled so, for some white space around them. */
  lemma CutExactly(s: string, ls: seq<Lexeme>)
    ensures Lexemes(s, 0) == ls <==> exists gaps :: Spaced(ls, gaps) && s == Spell(ls, gaps)
  {
    hide Lexemes, Spell;
    assert s[0..] == s;
    if Lexemes(s, 0) == ls {
      var gaps := Spelled(s, 0);
    }
    if gaps :| Spaced(ls, gaps) && |gaps| == |ls| + 1 && s == Spell(ls, gaps) {
      SpelledCut(s, 0, ls, gaps);
    }
  }
}
