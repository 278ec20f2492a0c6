/** Printing a command tree with all parentheses, and reading it back. */
module ShellPrint {
  import opened ShellSpec
  import opened ShellGrammar
  import opened ShellLexemes

  predicate Valid(t: Tree) {
    match t
    case TExec(args) => |args| < MAXARGS && forall k :: 0 <= k < |args| ==> ValidWord(args[k])
    case TRedir(c, file, _) => Valid(c) && ValidWord(file)
    case TPipe(left, right) => Valid(left) && Valid(right)
    case TList(left, right) => Valid(left) && Valid(right)
    case TBack(c) => Valid(c)
  }

  function Items(ws: seq<string>): (items: seq<Item>)
    ensures |items| == |ws|
  {
    seq(|ws|, k requires 0 <= k < |ws| => Item(ws[k], []))
  }

  /** The sentence for a tree: every part of a command that is one itself is in parentheses. */
  function Unparse(t: Tree): CmdLine {
    match t
    case TExec(args) => Last(One(Plain([], Items(args))), 0)
    case TRedir(c, file, mode) => Last(One(Block(Unparse(c), [Red(mode, file)])), 0)
    case TPipe(l, r) => Last(Bar(Block(Unparse(l), []), One(Block(Unparse(r), []))), 0)
    case TList(l, r) => Semi(One(Block(Unparse(l), [])), 0, Last(One(Block(Unparse(r), [])), 0))
    case TBack(c) => Last(One(Block(Unparse(c), [])), 1)
  }

  lemma {:induction false} ItemsMean(items: seq<Item>, ws: seq<string>)
    requires |items| == |ws| && forall k :: 0 <= k < |ws| ==> items[k] == Item(ws[k], [])
    ensures Words(items) == ws && Reds(items) == []
    decreases |ws|
  {
    if ws != [] {
      ItemsMean(items[1..], ws[1..]);
    }
  }

  /** A line in parentheses means what the line means, and fits if it does. */
  lemma BlockMeans(l: CmdLine)
    ensures MeanSimple(Block(l, [])) == MeanLine(l) == MeanPipe(One(Block(l, [])))
    ensures FitsSimple(Block(l, [])) == FitsLine(l) == FitsPipe(One(Block(l, [])))
  {
  }

  /** Every tree is the meaning of a sentence. */
  lemma {:induction false} UnparseMeans(t: Tree)
    requires Valid(t)
    ensures MeanLine(Unparse(t)) == t && FitsLine(Unparse(t))
  {
    match t
    case TExec(args) => {
      ItemsMean(Items(args), args);
      var c := Plain([], Items(args));
      assert [] + Reds(Items(args)) == [];
      assert MeanSimple(c) == TExec(args) && MeanPipe(One(c)) == MeanSimple(c) && FitsPipe(One(c));
    }
    case TRedir(c, file, mode) => {
      UnparseMeans(c);
      var b := Block(Unparse(c), [Red(mode, file)]);
      assert [Red(mode, file)][..0] == [];
      assert MeanSimple(b) == Nest(c, [Red(mode, file)]) == TRedir(Nest(c, []), file, mode);
      assert MeanPipe(One(b)) == MeanSimple(b) && FitsPipe(One(b));
    }
    case TPipe(l, r) => {
      UnparseMeans(l);
      UnparseMeans(r);
      BlockMeans(Unparse(l));
      BlockMeans(Unparse(r));
    }
    case TList(l, r) => {
      UnparseMeans(l);
      UnparseMeans(r);
      BlockMeans(Unparse(l));
      BlockMeans(Unparse(r));
      assert MeanLine(Last(One(Block(Unparse(r), [])), 0)) == r;
      assert FitsLine(Last(One(Block(Unparse(r), [])), 0));
    }
    case TBack(c) => {
      UnparseMeans(c);
      BlockMeans(Unparse(c));
      assert MeanBacks(c, 1) == TBack(MeanBacks(c, 0));
    }
  }

  predicate AllProper(ls: seq<Lexeme>) {
    forall k :: 0 <= k < |ls| ==> Proper(ls[k])
  }

  lemma {:induction false} ItemsProper(items: seq<Item>)
    requires forall k :: 0 <= k < |items| ==> ValidWord(items[k].w) && items[k].reds == []
    ensures AllProper(FlatItems(items))
    decreases |items|
  {
    if items != [] {
      ItemsProper(items[1..]);
    }
  }

  lemma BlockProper(l: CmdLine, rs: seq<Red>)
    requires AllProper(FlatLine(l)) && AllProper(FlatReds(rs))
    ensures AllProper(FlatSimple(Block(l, rs)))
    ensures FlatPipe(One(Block(l, rs))) == FlatSimple(Block(l, rs))
  {
    assert Proper(Sym('(')) && Proper(Sym(')'));
  }

  lemma {:induction false} UnparseProper(t: Tree)
    requires Valid(t)
    ensures AllProper(FlatLine(Unparse(t)))
  {
    hide FlatSimple;
    match t
    case TExec(args) => {
      ItemsProper(Items(args));
      PlainProper(Items(args));
    }
    case TRedir(c, file, mode) => {
      UnparseProper(c);
      RedProper(Red(mode, file));
      BlockProper(Unparse(c), [Red(mode, file)]);
    }
    case TPipe(l, r) => {
      UnparseProper(l);
      UnparseProper(r);
      BlockProper(Unparse(l), []);
      BlockProper(Unparse(r), []);
    }
    case TList(l, r) => {
      UnparseProper(l);
      UnparseProper(r);
      BlockProper(Unparse(l), []);
      BlockProper(Unparse(r), []);
      assert AllProper(FlatLine(Last(One(Block(Unparse(r), [])), 0)));
    }
    case TBack(c) => {
      UnparseProper(c);
      BlockProper(Unparse(c), []);
      assert FlatBacks(1) == [Sym('&')] + FlatBacks(0);
    }
  }

  lemma PlainProper(items: seq<Item>)
    requires AllProper(FlatItems(items))
    ensures AllProper(FlatSimple(Plain([], items)))
  {
    assert FlatReds([]) + FlatItems(items) == FlatItems(items);
  }

  lemma {:induction false} RedProper(r: Red)
    requires ValidWord(r.file)
    ensures AllProper(FlatReds([r]))
  {
    assert FlatReds([r][1..]) == [];
  }

  /** The text: the lexemes of the sentence, with a blank around each. */
  function Show(t: Tree): string {
    var ls := FlatLine(Unparse(t));
    Spell(ls, seq(|ls| + 1, k => " "))
  }

  /** Parsing what a command prints as gives the command back, for every command tree with at most
      MAXARGS - 1 words to a command. */
  lemma RoundTrip(t: Tree)
    requires Valid(t)
    ensures ParseCmd(Show(t)).Parsed? && Text(Show(t), ParseCmd(Show(t)).value) == t
  {
    hide ParseCmd, Lexemes, Spell, FlatLine, MeanLine, Unparse, FitsLine, Text;
    var s, l := Show(t), Unparse(t);
    var ls := FlatLine(l);
    UnparseMeans(t);
    UnparseProper(t);
    assert s[0..] == s;
    SpelledCut(s, 0, ls, seq(|ls| + 1, k => " "));
    SentenceRead(s, l);
  }
}
