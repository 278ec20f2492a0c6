/** The shell's language, stated on its own: which sequences of lexemes are command lines and what
    tree each of them means.  The parser accepts exactly these and returns that tree, whatever white
    space stands between the lexemes. */
module ShellGrammar {
  import opened ShellSpec

  /** A command with its words and file names themselves. */
  datatype Tree =
    | TExec(args: seq<string>)
    | TRedir(cmd: Tree, file: string, mode: Mode)
    | TPipe(left: Tree, right: Tree)
    | TList(left: Tree, right: Tree)
    | TBack(cmd: Tree)

  /** What a parsed command says, given the string it was parsed from. */
  ghost function Text(s: string, c: Cmd): Tree
    requires CmdOk(s, c)
  {
    match c
    case Exec(args) => TExec(seq(|args|, k requires 0 <= k < |args| => s[args[k].start..args[k].end]))
    case Redir(d, r) => TRedir(Text(s, d), s[r.file.start..r.file.end], r.mode)
    case Pipe(left, right) => TPipe(Text(s, left), Text(s, right))
    case List(left, right) => TList(Text(s, left), Text(s, right))
    case Back(d) => TBack(Text(s, d))
  }

  // ----- lexemes

  /** A symbol, ">>", or a word. */
  datatype Lexeme = Sym(c: char) | App | Wd(w: string)

  function LexemeOf(s: string, t: Token): Lexeme
    requires !t.kind.End? && t.span.start <= t.span.end <= |s|
  {
    match t.kind
    case Symbol(c) => Sym(c)
    case Append => App
    case Word => Wd(s[t.span.start..t.span.end])
    case End => App
  }

  /** What gettoken finds from i on. */
  function Lexemes(s: string, i: nat): seq<Lexeme>
    requires i <= |s|
    decreases |s| - i
  {
    var t := GetToken(s, i);
    if t.kind.End? then [] else [LexemeOf(s, t)] + Lexemes(s, t.next)
  }

  lemma {:induction false} TokenSkip(s: string, i: nat)
    requires i <= |s|
    ensures GetToken(s, SkipWhite(s, i)) == GetToken(s, i)
  {
    hide SkipWhite;
    SkipTwice(s, i);
  }

  lemma {:induction false} LexSkip(s: string, i: nat)
    requires i <= |s|
    ensures Lexemes(s, SkipWhite(s, i)) == Lexemes(s, i) && GetToken(s, SkipWhite(s, i)) == GetToken(s, i)
  {
    hide GetToken, SkipWhite;
    TokenSkip(s, i);
  }

  /** The cursor is at i, past white space, and ls is to come. */
  ghost predicate At(s: string, i: nat, ls: seq<Lexeme>) {
    i <= |s| && SkipWhite(s, i) == i && Lexemes(s, i) == ls
  }

  /** What peek sees, and what gettoken takes. */
  lemma Next(s: string, i: nat, ls: seq<Lexeme>)
    requires At(s, i, ls)
    ensures ls == [] <==> i == |s|
    ensures ls == [] <==> GetToken(s, i).kind.End?
    ensures ls != [] ==> i < |s| && At(s, GetToken(s, i).next, ls[1..]) && ls[0] == LexemeOf(s, GetToken(s, i))
    ensures ls != [] && ls[0].Sym? ==> s[i] == ls[0].c && IsSymbol(s[i])
    ensures ls != [] && ls[0].App? ==> s[i] == '>' && GetToken(s, i).kind.Append?
    ensures ls != [] && ls[0].Wd? ==> IsWordChar(s[i]) && GetToken(s, i).kind.Word?
    ensures ls == [] ==> GetToken(s, i).next == i
  {
    var t := GetToken(s, i);
    if ls != [] {
      TokenSkips(s, i);
      assert ls[1..] == Lexemes(s, t.next);
    }
  }

  lemma TokenSkips(s: string, i: nat)
    requires i <= |s|
    ensures SkipWhite(s, GetToken(s, i).next) == GetToken(s, i).next
  {
    var a := SkipWhite(s, i);
    SkipTwice(s, a);
    if a < |s| {
      SkipTwice(s, a + 1);
      SkipTwice(s, WordEnd(s, a));
      if a + 1 < |s| {
        SkipTwice(s, a + 2);
      }
    }
  }

  // ----- the language

  datatype Red = Red(mode: Mode, file: string)

  /** A word and the redirections behind it. */
  datatype Item = Item(w: string, reds: seq<Red>)

  /** A simple command: redirections and words in any order; or a parenthesised line and
      redirections. */
  datatype Simple = Plain(first: seq<Red>, items: seq<Item>) | Block(line: CmdLine, reds: seq<Red>)

  datatype Pipeline = One(c: Simple) | Bar(c: Simple, rest: Pipeline)

  /** Pipelines, each with some number of '&' behind it, separated by ';'. */
  datatype CmdLine = Last(p: Pipeline, backs: nat) | Semi(p: Pipeline, backs: nat, rest: CmdLine)

  function FlatReds(rs: seq<Red>): seq<Lexeme> {
    if rs == [] then []
    else [match rs[0].mode case Input => Sym('<') case Output => Sym('>') case AppendOutput => App, Wd(rs[0].file)] + FlatReds(rs[1..])
  }

  function FlatItems(items: seq<Item>): seq<Lexeme> {
    if items == [] then [] else [Wd(items[0].w)] + (FlatReds(items[0].reds) + FlatItems(items[1..]))
  }

  function FlatSimple(c: Simple): seq<Lexeme> {
    match c
    case Plain(first, items) => FlatReds(first) + FlatItems(items)
    case Block(line, reds) => [Sym('(')] + (FlatLine(line) + ([Sym(')')] + FlatReds(reds)))
  }

  function FlatPipe(p: Pipeline): seq<Lexeme> {
    match p
    case One(c) => FlatSimple(c)
    case Bar(c, rest) => FlatSimple(c) + ([Sym('|')] + FlatPipe(rest))
  }

  function FlatBacks(n: nat): seq<Lexeme> {
    if n == 0 then [] else [Sym('&')] + FlatBacks(n - 1)
  }

  function FlatLine(l: CmdLine): seq<Lexeme> {
    match l
    case Last(p, backs) => FlatPipe(p) + FlatBacks(backs)
    case Semi(p, backs, rest) => FlatPipe(p) + (FlatBacks(backs) + ([Sym(';')] + FlatLine(rest)))
  }

  // ----- what it means

  /** t with redirections around it, the first one innermost. */
  function Nest(t: Tree, rs: seq<Red>): Tree
    decreases |rs|
  {
    if rs == [] then t else
      var n := |rs| - 1;
      TRedir(Nest(t, rs[..n]), rs[n].file, rs[n].mode)
  }

  function Words(items: seq<Item>): seq<string> {
    if items == [] then [] else [items[0].w] + Words(items[1..])
  }

  function Reds(items: seq<Item>): seq<Red> {
    if items == [] then [] else items[0].reds + Reds(items[1..])
  }

  function MeanSimple(c: Simple): Tree {
    match c
    case Plain(first, items) => Nest(TExec(Words(items)), first + Reds(items))
    case Block(line, reds) => Nest(MeanLine(line), reds)
  }

  function MeanPipe(p: Pipeline): Tree {
    match p
    case One(c) => MeanSimple(c)
    case Bar(c, rest) => TPipe(MeanSimple(c), MeanPipe(rest))
  }

  function MeanBacks(t: Tree, n: nat): Tree {
    if n == 0 then t else TBack(MeanBacks(t, n - 1))
  }

  function MeanLine(l: CmdLine): Tree {
    match l
    case Last(p, backs) => MeanBacks(MeanPipe(p), backs)
    case Semi(p, backs, rest) => TList(MeanBacks(MeanPipe(p), backs), MeanLine(rest))
  }

  /** No command has MAXARGS words or more. */
  predicate FitsSimple(c: Simple) {
    match c
    case Plain(_, items) => |items| < MAXARGS
    case Block(line, _) => FitsLine(line)
  }

  predicate FitsPipe(p: Pipeline) {
    match p
    case One(c) => FitsSimple(c)
    case Bar(c, rest) => FitsSimple(c) && FitsPipe(rest)
  }

  predicate FitsLine(l: CmdLine) {
    match l
    case Last(p, _) => FitsPipe(p)
    case Semi(p, _, rest) => FitsPipe(p) && FitsLine(rest)
  }

  // ----- what may follow

  predicate Starts(ls: seq<Lexeme>, chars: string) {
    ls != [] && ls[0].Sym? && ls[0].c in chars
  }

  predicate StartsRed(ls: seq<Lexeme>) {
    ls != [] && (ls[0].App? || Starts(ls, "<>"))
  }

  /** peek tells which symbol comes. */
  lemma Peeks(s: string, i: nat, ls: seq<Lexeme>)
    requires At(s, i, ls)
    ensures Peek(s, i, "<>") <==> StartsRed(ls)
    ensures forall c :: c in "|)&;(" ==> (Peek(s, i, [c]) <==> Starts(ls, [c]))
    ensures Peek(s, i, "|)&;") <==> Starts(ls, "|)&;")
  {
    Next(s, i, ls);
    if ls == [] {
    } else if ls[0].Wd? {
      assert !IsSymbol(s[i]);
    }
  }

  // ----- redirections

  /** The redirections found in s say rs. */
  ghost predicate SayReds(s: string, found: seq<Redirection>, rs: seq<Red>) {
    && |found| == |rs| && RedirsOk(s, found)
    && forall k :: 0 <= k < |rs| ==> Red(found[k].mode, s[found[k].file.start..found[k].file.end]) == rs[k]
  }

  /** A sentence is read, and the cursor is behind it. */
  lemma {:induction false} RedsRead(s: string, i: nat, rs: seq<Red>, rest: seq<Lexeme>)
    requires At(s, i, FlatReds(rs) + rest) && !StartsRed(rest)
    ensures var r := ParseRedirs(s, i);
            r.Parsed? && At(s, r.next, rest) && SayReds(s, r.value, rs)
    decreases |rs|
  {
    hide GetToken, Lexemes, SkipWhite;
    var ls := FlatReds(rs) + rest;
    Peeks(s, i, ls);
    if rs == [] {
      assert ls == rest;
    } else {
      var more := FlatReds(rs[1..]) + rest;
      assert ls[1..] == [Wd(rs[0].file)] + more && ls[1..][1..] == more;
      Next(s, i, ls);
      var t := GetToken(s, i);
      Next(s, t.next, ls[1..]);
      var w := GetToken(s, t.next);
      RedsRead(s, w.next, rs[1..], rest);
      RedModes(s, t, rs[0].mode);
    }
  }

  lemma RedModes(s: string, t: Token, mode: Mode)
    requires !t.kind.End? && t.span.start <= t.span.end <= |s|
    requires LexemeOf(s, t) == match mode case Input => Sym('<') case Output => Sym('>') case AppendOutput => App
    ensures ModeOf(t.kind) == mode
  {
  }

  // ----- words

  ghost predicate SayWords(s: string, found: seq<Span>, ws: seq<string>) {
    && |found| == |ws|
    && forall k :: 0 <= k < |ws| ==> SpanOk(s, found[k]) && s[found[k].start..found[k].end] == ws[k]
  }

  lemma SayMoreReds(s: string, a: seq<Redirection>, rs: seq<Red>, b: seq<Redirection>, qs: seq<Red>)
    requires SayReds(s, a, rs) && SayReds(s, b, qs)
    ensures SayReds(s, a + b, rs + qs)
  {
  }

  lemma SayMoreWords(s: string, a: seq<Span>, ws: seq<string>, b: Span, w: string)
    requires SayWords(s, a, ws) && SpanOk(s, b) && s[b.start..b.end] == w
    ensures SayWords(s, a + [b], ws + [w])
  {
  }

  lemma {:induction false} WordsLength(items: seq<Item>)
    ensures |Words(items)| == |items|
  {
    if items != [] {
      WordsLength(items[1..]);
    }
  }

  lemma ItemsStart(items: seq<Item>, rest: seq<Lexeme>)
    requires rest == [] || Starts(rest, "|)&;")
    ensures !StartsRed(FlatItems(items) + rest)
  {
    if items == [] {
      assert FlatItems(items) + rest == rest;
    }
  }

  /** parseexec's loop stops. */
  lemma ArgsStop(s: string, i: nat, l: ShellSpec.Line, rest: seq<Lexeme>)
    requires At(s, i, rest) && (rest == [] || Starts(rest, "|)&;"))
    ensures ParseArgs(s, l, i) == Parsed(l, i)
  {
    Peeks(s, i, rest);
    Next(s, i, rest);
  }

  /** It takes a word and the redirections behind it. */
  lemma ItemStep(s: string, i: nat, l: ShellSpec.Line, it: Item, more: seq<Lexeme>)
    requires At(s, i, [Wd(it.w)] + (FlatReds(it.reds) + more)) && !StartsRed(more) && |l.args| + 1 < MAXARGS
    ensures var t := GetToken(s, i);
            var found := ParseRedirs(s, t.next);
            && SpanOk(s, t.span) && s[t.span.start..t.span.end] == it.w
            && found.Parsed? && At(s, found.next, more) && SayReds(s, found.value, it.reds)
            && ParseArgs(s, l, i) == ParseArgs(s, ShellSpec.Line(l.args + [t.span], l.redirs + found.value), found.next)
  {
    hide GetToken, Lexemes, SkipWhite, SayReds, ParseRedirs;
    var ls := [Wd(it.w)] + (FlatReds(it.reds) + more);
    Peeks(s, i, ls);
    Next(s, i, ls);
    assert ls[1..] == FlatReds(it.reds) + more;
    RedsRead(s, GetToken(s, i).next, it.reds, more);
  }

  /** parseexec's loop, which has found l, saying ws and rs, so far. */
  lemma {:induction false} ItemsRead(s: string, i: nat, l: ShellSpec.Line, ws: seq<string>, rs: seq<Red>, items: seq<Item>, rest: seq<Lexeme>)
    requires At(s, i, FlatItems(items) + rest) && (rest == [] || Starts(rest, "|)&;"))
    requires SayWords(s, l.args, ws) && SayReds(s, l.redirs, rs) && |ws| + |items| < MAXARGS
    ensures var r := ParseArgs(s, l, i);
            && r.Parsed? && At(s, r.next, rest)
            && SayWords(s, r.value.args, ws + Words(items)) && SayReds(s, r.value.redirs, rs + Reds(items))
    decreases |items|
  {
    hide At, SayWords, SayReds, ParseRedirs, ParseArgs, Starts, FlatReds;
    if items == [] {
      assert FlatItems(items) + rest == rest && ws + [] == ws && rs + [] == rs;
      ArgsStop(s, i, l, rest);
    } else {
      var it, tail := items[0], items[1..];
      var more := FlatItems(tail) + rest;
      assert FlatItems(items) + rest == [Wd(it.w)] + (FlatReds(it.reds) + more);
      ItemsStart(tail, rest);
      SayLength(s, l.args, ws);
      AtBound(s, i, [Wd(it.w)] + (FlatReds(it.reds) + more));
      ItemStep(s, i, l, it, more);
      var t := GetToken(s, i);
      var found := ParseRedirs(s, t.next);
      SayMoreWords(s, l.args, ws, t.span, it.w);
      SayMoreReds(s, l.redirs, rs, found.value, it.reds);
      ItemsRead(s, found.next, ShellSpec.Line(l.args + [t.span], l.redirs + found.value), ws + [it.w], rs + it.reds, tail, rest);
      RegroupWords(ws, it.w, Words(tail));
      RegroupReds(rs, it.reds, Reds(tail));
    }
  }

  lemma AtBound(s: string, i: nat, ls: seq<Lexeme>)
    requires At(s, i, ls)
    ensures i <= |s|
  {
  }

  lemma RegroupWords(a: seq<string>, w: string, b: seq<string>)
    ensures a + [w] + b == a + ([w] + b)
  {
  }

  lemma RegroupReds(a: seq<Red>, b: seq<Red>, c: seq<Red>)
    ensures a + b + c == a + (b + c)
  {
  }

  lemma SayLength(s: string, found: seq<Span>, ws: seq<string>)
    requires SayWords(s, found, ws)
    ensures |found| == |ws|
  {
  }

  // ----- commands

  /** The result is a command that means t, and `rest` is to come. */
  ghost predicate Gives(r: Result<Cmd>, s: string, t: Tree, rest: seq<Lexeme>) {
    r.Parsed? && CmdOk(s, r.value) && Text(s, r.value) == t && At(s, r.next, rest)
  }

  lemma {:induction false} NestFront(t: Tree, r: Red, rs: seq<Red>)
    ensures Nest(TRedir(t, r.file, r.mode), rs) == Nest(t, [r] + rs)
    decreases |rs|
  {
    var all := [r] + rs;
    if rs == [] {
      assert all[..0] == [] && Nest(t, all[..0]) == t;
    } else {
      var n := |rs| - 1;
      NestFront(t, r, rs[..n]);
      assert all[..n + 1] == [r] + rs[..n];
    }
  }

  lemma {:induction false} WrappedMeans(s: string, c: Cmd, found: seq<Redirection>, rs: seq<Red>)
    requires CmdOk(s, c) && SayReds(s, found, rs)
    ensures CmdOk(s, Wrapped(c, found)) && Text(s, Wrapped(c, found)) == Nest(Text(s, c), rs)
    decreases |rs|
  {
    if rs != [] {
      var d := Redir(c, found[0]);
      WrappedMeans(s, d, found[1..], rs[1..]);
      NestFront(Text(s, c), rs[0], rs[1..]);
      assert [rs[0]] + rs[1..] == rs;
    }
  }

  lemma ExecMeans(s: string, args: seq<Span>, ws: seq<string>)
    requires SayWords(s, args, ws) && |ws| < MAXARGS
    ensures CmdOk(s, Exec(args)) && Text(s, Exec(args)) == TExec(ws)
  {
    assert Text(s, Exec(args)).args == ws;
  }

  lemma PlainRead(s: string, i: nat, first: seq<Red>, items: seq<Item>, rest: seq<Lexeme>)
    requires At(s, i, FlatReds(first) + FlatItems(items) + rest) && (rest == [] || Starts(rest, "|)&;")) && |items| < MAXARGS
    ensures Gives(ParseExec(s, i), s, Nest(TExec(Words(items)), first + Reds(items)), rest)
  {
    hide GetToken, Lexemes, SkipWhite, SayReds, ParseRedirs, ParseArgs, Wrapped;
    var ls := FlatReds(first) + FlatItems(items) + rest;
    var more := FlatItems(items) + rest;
    assert ls == FlatReds(first) + more;
    PlainStarts(first, items, rest);
    Peeks(s, i, ls);
    RedsRead(s, i, first, more);
    var found := ParseRedirs(s, i);
    ItemsRead(s, found.next, ShellSpec.Line([], found.value), [], first, items, rest);
    var l := ParseArgs(s, ShellSpec.Line([], found.value), found.next);
    assert [] + Words(items) == Words(items);
    WordsLength(items);
    ExecMeans(s, l.value.args, Words(items));
    WrappedMeans(s, Exec(l.value.args), l.value.redirs, first + Reds(items));
  }

  lemma PlainStarts(first: seq<Red>, items: seq<Item>, rest: seq<Lexeme>)
    requires rest == [] || Starts(rest, "|)&;")
    ensures !Starts(FlatReds(first) + FlatItems(items) + rest, "(") && !StartsRed(FlatItems(items) + rest)
  {
    var ls := FlatReds(first) + FlatItems(items) + rest;
    if first == [] && items == [] {
      assert ls == rest;
    }
  }

  lemma {:induction false} SimpleRead(s: string, i: nat, c: Simple, rest: seq<Lexeme>)
    requires At(s, i, FlatSimple(c) + rest) && (rest == [] || Starts(rest, "|)&;")) && FitsSimple(c)
    ensures Gives(ParseExec(s, i), s, MeanSimple(c), rest)
    decreases c
  {
    hide ParseExec, ParseBlock, Lexemes, SkipWhite, GetToken;
    match c
    case Plain(first, items) => PlainRead(s, i, first, items, rest);
    case Block(line, reds) => {
      var ls := FlatSimple(c) + rest;
      var after := FlatReds(reds) + rest;
      assert ls[1..] == FlatLine(line) + ([Sym(')')] + after);
      assert ls[0] == Sym('(');
      Next(s, i, ls);
      LineRead(s, GetToken(s, i).next, line, [Sym(')')] + after);
      assert ([Sym(')')] + after)[1..] == after;
      BlockRead2(s, i, ls, MeanLine(line), after, reds, rest);
    }
  }

  /** parseblock behind its line. */
  lemma BlockRead2(s: string, i: nat, ls: seq<Lexeme>, t: Tree, after: seq<Lexeme>, reds: seq<Red>, rest: seq<Lexeme>)
    requires At(s, i, ls) && Starts(ls, "(") && after == FlatReds(reds) + rest && (rest == [] || Starts(rest, "|)&;"))
    requires Gives(ParseLine(s, GetToken(s, i).next), s, t, [Sym(')')] + after)
    ensures Gives(ParseExec(s, i), s, Nest(t, reds), rest)
  {
    hide ParseLine, Lexemes, SkipWhite, GetToken, SayReds, ParseRedirs, ParseArgs, Wrapped;
    Next(s, i, ls);
    Peeks(s, i, ls);
    var c := ParseLine(s, GetToken(s, i).next);
    var bs := [Sym(')')] + after;
    Next(s, c.next, bs);
    Peeks(s, c.next, bs);
    assert bs[1..] == after;
    RedsRead(s, GetToken(s, c.next).next, reds, rest);
    WrappedMeans(s, c.value, ParseRedirs(s, GetToken(s, c.next).next).value, reds);
  }

  lemma {:induction false} PipeRead(s: string, i: nat, p: Pipeline, rest: seq<Lexeme>)
    requires At(s, i, FlatPipe(p) + rest) && (rest == [] || Starts(rest, ")&;")) && FitsPipe(p)
    ensures Gives(ParsePipe(s, i), s, MeanPipe(p), rest)
    decreases p, 0
  {
    hide ParseExec, Lexemes, SkipWhite, GetToken;
    match p
    case One(c) => {
      SimpleRead(s, i, c, rest);
      Peeks(s, ParseExec(s, i).next, rest);
    }
    case Bar(c, more) => {
      var bs := [Sym('|')] + (FlatPipe(more) + rest);
      assert FlatPipe(p) + rest == FlatSimple(c) + bs;
      SimpleRead(s, i, c, bs);
      var j := ParseExec(s, i).next;
      Peeks(s, j, bs);
      Next(s, j, bs);
      assert bs[1..] == FlatPipe(more) + rest;
      PipeRead(s, GetToken(s, j).next, more, rest);
    }
  }

  lemma {:induction false} MeanBacksFront(t: Tree, n: nat)
    ensures MeanBacks(TBack(t), n) == TBack(MeanBacks(t, n))
  {
    if n > 0 {
      MeanBacksFront(t, n - 1);
    }
  }

  lemma {:induction false} BacksRead(s: string, c: Cmd, i: nat, n: nat, rest: seq<Lexeme>)
    requires At(s, i, FlatBacks(n) + rest) && !Starts(rest, "&") && CmdOk(s, c)
    ensures Gives(ParseBacks(s, c, i), s, MeanBacks(Text(s, c), n), rest)
    decreases n
  {
    hide Lexemes, SkipWhite, GetToken;
    var ls := FlatBacks(n) + rest;
    Peeks(s, i, ls);
    if n == 0 {
      assert ls == rest;
    } else {
      Next(s, i, ls);
      assert ls[1..] == FlatBacks(n - 1) + rest;
      BacksRead(s, Back(c), GetToken(s, i).next, n - 1, rest);
      MeanBacksFront(Text(s, c), n - 1);
    }
  }

  lemma BacksStart(n: nat, rest: seq<Lexeme>)
    requires rest == [] || Starts(rest, ");")
    ensures FlatBacks(n) + rest == [] || Starts(FlatBacks(n) + rest, ")&;")
  {
    if n == 0 {
      assert FlatBacks(n) + rest == rest;
    }
  }

  /** A pipeline and the '&' behind it. */
  lemma {:induction false} PartRead(s: string, i: nat, p: Pipeline, n: nat, rest: seq<Lexeme>)
    requires At(s, i, FlatPipe(p) + (FlatBacks(n) + rest)) && (rest == [] || Starts(rest, ");")) && FitsPipe(p)
    ensures ParsePipe(s, i).Parsed?
    ensures Gives(ParseBacks(s, ParsePipe(s, i).value, ParsePipe(s, i).next), s, MeanBacks(MeanPipe(p), n), rest)
    decreases p, 1
  {
    hide ParsePipe, ParseBacks, Lexemes, SkipWhite, GetToken;
    BacksStart(n, rest);
    PipeRead(s, i, p, FlatBacks(n) + rest);
    BacksRead(s, ParsePipe(s, i).value, ParsePipe(s, i).next, n, rest);
  }

  lemma {:induction false} LineRead(s: string, i: nat, l: CmdLine, rest: seq<Lexeme>)
    requires At(s, i, FlatLine(l) + rest) && (rest == [] || Starts(rest, ")")) && FitsLine(l)
    ensures Gives(ParseLine(s, i), s, MeanLine(l), rest)
    decreases l
  {
    hide ParsePipe, ParseBacks, Lexemes, SkipWhite, GetToken;
    match l
    case Last(p, n) => {
      assert FlatLine(l) + rest == FlatPipe(p) + (FlatBacks(n) + rest);
      PartRead(s, i, p, n, rest);
      Peeks(s, ParseBacks(s, ParsePipe(s, i).value, ParsePipe(s, i).next).next, rest);
    }
    case Semi(p, n, more) => {
      var bs := [Sym(';')] + (FlatLine(more) + rest);
      assert FlatLine(l) + rest == FlatPipe(p) + (FlatBacks(n) + bs);
      PartRead(s, i, p, n, bs);
      var j := ParseBacks(s, ParsePipe(s, i).value, ParsePipe(s, i).next).next;
      Peeks(s, j, bs);
      Next(s, j, bs);
      assert bs[1..] == FlatLine(more) + rest;
      LineRead(s, GetToken(s, j).next, more, rest);
    }
  }

  /** Every sentence is accepted, however it is spaced, and read as what it means. */
  lemma SentenceRead(s: string, l: CmdLine)
    requires Lexemes(s, 0) == FlatLine(l) && FitsLine(l)
    ensures ParseCmd(s).Parsed? && Text(s, ParseCmd(s).value) == MeanLine(l)
  {
    hide ParseLine, Lexemes, SkipWhite, GetToken, FlatLine;
    var i := SkipWhite(s, 0);
    LexSkip(s, 0);
    SkipTwice(s, 0);
    assert FlatLine(l) + [] == FlatLine(l);
    LineRead(s, i, l, []);
    LineSkip(s, 0);
    Next(s, ParseLine(s, i).next, []);
  }

  /** White space in front does not matter to parseline. */
  lemma LineSkip(s: string, i: nat)
    requires i <= |s|
    ensures ParseLine(s, i) == ParseLine(s, SkipWhite(s, i))
  {
    hide ParseRedirs, ParseArgs, ParseBlock, Wrapped;
    SkipTwice(s, i);
    assert ParseExec(s, i) == ParseExec(s, SkipWhite(s, i));
    assert ParsePipe(s, i) == ParsePipe(s, SkipWhite(s, i));
  }

  // ----- nothing else is accepted

  /** Where a parsing function stopped, the cursor is past white space. */
  ghost predicate Ahead(s: string, i: nat) {
    i <= |s| && SkipWhite(s, i) == i
  }

  lemma {:induction false} RedsFound(s: string, i: nat) returns (rs: seq<Red>)
    requires Ahead(s, i) && ParseRedirs(s, i).Parsed?
    ensures var j := ParseRedirs(s, i).next;
            Ahead(s, j) && Lexemes(s, i) == FlatReds(rs) + Lexemes(s, j)
    decreases |s| - i
  {
    hide GetToken, Lexemes, SkipWhite;
    var ls := Lexemes(s, i);
    Peeks(s, i, ls);
    if !StartsRed(ls) {
      rs := [];
    } else {
      Next(s, i, ls);
      var t := GetToken(s, i);
      Next(s, t.next, ls[1..]);
      var w := GetToken(s, t.next);
      var tail := RedsFound(s, w.next);
      rs := [Red(ModeOf(t.kind), s[w.span.start..w.span.end])] + tail;
      assert rs[1..] == tail;
      assert ls == [ls[0], ls[1..][0]] + ls[1..][1..];
    }
  }

  lemma {:induction false} ItemsFound(s: string, i: nat, l: ShellSpec.Line) returns (items: seq<Item>)
    requires Ahead(s, i) && ParseArgs(s, l, i).Parsed? && |l.args| < MAXARGS
    ensures var r := ParseArgs(s, l, i);
            Ahead(s, r.next) && Lexemes(s, i) == FlatItems(items) + Lexemes(s, r.next) && |l.args| + |items| < MAXARGS
    decreases |s| - i
  {
    hide GetToken, Lexemes, SkipWhite, ParseRedirs;
    var ls := Lexemes(s, i);
    Peeks(s, i, ls);
    Next(s, i, ls);
    if ls == [] || Starts(ls, "|)&;") {
      items := [];
    } else {
      var t := GetToken(s, i);
      var reds := RedsFound(s, t.next);
      var found := ParseRedirs(s, t.next);
      var tail := ItemsFound(s, found.next, ShellSpec.Line(l.args + [t.span], l.redirs + found.value));
      items := [Item(s[t.span.start..t.span.end], reds)] + tail;
      assert items[1..] == tail;
      assert ls == [ls[0]] + ls[1..];
    }
  }

  lemma {:induction false} SimpleFound(s: string, i: nat) returns (c: Simple)
    requires Ahead(s, i) && ParseExec(s, i).Parsed?
    ensures var j := ParseExec(s, i).next;
            Ahead(s, j) && Lexemes(s, i) == FlatSimple(c) + Lexemes(s, j) && FitsSimple(c)
    decreases |s| - i, 1
  {
    hide GetToken, Lexemes, SkipWhite, ParseRedirs, ParseArgs, ParseLine, Wrapped, FlatLine, FitsLine, FlatReds, FlatItems;
    var ls := Lexemes(s, i);
    Peeks(s, i, ls);
    if Starts(ls, "(") {
      Next(s, i, ls);
      var a := GetToken(s, i).next;
      var line := LineFound(s, a);
      var k := ParseLine(s, a).next;
      var bs := Lexemes(s, k);
      Peeks(s, k, bs);
      Next(s, k, bs);
      var reds := RedsFound(s, GetToken(s, k).next);
      c := Block(line, reds);
      assert ls == [Sym('(')] + ls[1..] && bs == [Sym(')')] + bs[1..];
    } else {
      var first := RedsFound(s, i);
      var found := ParseRedirs(s, i);
      var items := ItemsFound(s, found.next, ShellSpec.Line([], found.value));
      c := Plain(first, items);
    }
  }

  lemma {:induction false} PipeFound(s: string, i: nat) returns (p: Pipeline)
    requires Ahead(s, i) && ParsePipe(s, i).Parsed?
    ensures var j := ParsePipe(s, i).next;
            Ahead(s, j) && Lexemes(s, i) == FlatPipe(p) + Lexemes(s, j) && FitsPipe(p)
    decreases |s| - i, 2
  {
    hide GetToken, Lexemes, SkipWhite, ParseExec;
    var c := SimpleFound(s, i);
    var k := ParseExec(s, i).next;
    var bs := Lexemes(s, k);
    Peeks(s, k, bs);
    if Starts(bs, "|") {
      Next(s, k, bs);
      var rest := PipeFound(s, GetToken(s, k).next);
      p := Bar(c, rest);
      assert bs == [Sym('|')] + bs[1..];
    } else {
      p := One(c);
    }
  }

  lemma {:induction false} BacksFound(s: string, c: Cmd, i: nat) returns (n: nat)
    requires Ahead(s, i) && CmdOk(s, c)
    ensures var j := ParseBacks(s, c, i).next;
            Ahead(s, j) && Lexemes(s, i) == FlatBacks(n) + Lexemes(s, j)
    decreases |s| - i
  {
    hide GetToken, Lexemes, SkipWhite;
    var ls := Lexemes(s, i);
    Peeks(s, i, ls);
    if Starts(ls, "&") {
      Next(s, i, ls);
      n := BacksFound(s, Back(c), GetToken(s, i).next);
      n := n + 1;
      assert ls == [Sym('&')] + ls[1..];
    } else {
      n := 0;
    }
  }

  lemma {:induction false} LineFound(s: string, i: nat) returns (l: CmdLine)
    requires Ahead(s, i) && ParseLine(s, i).Parsed?
    ensures var j := ParseLine(s, i).next;
            Ahead(s, j) && Lexemes(s, i) == FlatLine(l) + Lexemes(s, j) && FitsLine(l)
    decreases |s| - i, 3
  {
    hide GetToken, Lexemes, SkipWhite, ParsePipe, ParseBacks;
    var p := PipeFound(s, i);
    var c := ParsePipe(s, i);
    var n := BacksFound(s, c.value, c.next);
    var k := ParseBacks(s, c.value, c.next).next;
    var bs := Lexemes(s, k);
    Peeks(s, k, bs);
    if Starts(bs, ";") {
      Next(s, k, bs);
      var rest := LineFound(s, GetToken(s, k).next);
      l := Semi(p, n, rest);
      assert bs == [Sym(';')] + bs[1..];
    } else {
      l := Last(p, n);
    }
  }

  /** The line is a sentence, and l says which. */
  ghost predicate Sentence(s: string, l: CmdLine) {
    Lexemes(s, 0) == FlatLine(l) && FitsLine(l)
  }

  /** parsecmd accepts exactly the sentences, and what it returns is what the sentence means. */
  lemma AcceptsExactly(s: string)
    ensures ParseCmd(s).Parsed? <==> exists l :: Sentence(s, l)
    ensures forall l :: Sentence(s, l) ==> ParseCmd(s).Parsed? && Text(s, ParseCmd(s).value) == MeanLine(l)
  {
    hide ParseLine, Lexemes, SkipWhite, GetToken, FlatLine, MeanLine;
    forall l | Sentence(s, l)
      ensures ParseCmd(s).Parsed? && Text(s, ParseCmd(s).value) == MeanLine(l)
    {
      SentenceRead(s, l);
    }
    if ParseCmd(s).Parsed? {
      var i := SkipWhite(s, 0);
      LexSkip(s, 0);
      SkipTwice(s, 0);
      LineSkip(s, 0);
      var l := LineFound(s, i);
      var j := ParseLine(s, i).next;
      Next(s, j, Lexemes(s, j));
      assert FlatLine(l) + [] == FlatLine(l);
      assert Sentence(s, l);
    }
  }
}
