/** The shell's grammar over a string: tokens, and what each parsing function makes of the input from
    a position on.  The end of the string stands for its NUL. */
module ShellSpec {

  const MAXARGS := 10

  predicate IsWhite(c: char) {
    c == ' ' || c == '\t' || c == '\r' || c == '\n' || c == 11 as char
  }

  predicate IsSymbol(c: char) {
    c in "<|>&;()"
  }

  predicate IsWordChar(c: char) {
    !IsWhite(c) && !IsSymbol(c)
  }

  function SkipWhite(s: string, i: nat): (j: nat)
    requires i <= |s|
    ensures i <= j <= |s| && (j < |s| ==> !IsWhite(s[j]))
    decreases |s| - i
  {
    if i < |s| && IsWhite(s[i]) then SkipWhite(s, i + 1) else i
  }

  lemma {:induction false} SkipTwice(s: string, i: nat)
    requires i <= |s|
    ensures SkipWhite(s, SkipWhite(s, i)) == SkipWhite(s, i)
  {
  }

  function WordEnd(s: string, i: nat): (j: nat)
    requires i <= |s|
    ensures i <= j <= |s| && (j < |s| ==> !IsWordChar(s[j])) && (forall k :: i <= k < j ==> IsWordChar(s[k]))
    decreases |s| - i
  {
    if i < |s| && IsWordChar(s[i]) then WordEnd(s, i + 1) else i
  }

  /** A token in the source: from start to before end. */
  datatype Span = Span(start: nat, end: nat)

  datatype Tok = End | Symbol(c: char) | Append | Word

  /** gettoken: its kind, its place, and where the next one starts. */
  datatype Token = Token(kind: Tok, span: Span, next: nat)

  function GetToken(s: string, i: nat): (t: Token)
    requires i <= |s|
    ensures i <= t.span.start <= t.span.end <= t.next <= |s|
    ensures !t.kind.End? ==> i < t.next
    ensures t.kind.Word? ==> SpanOk(s, t.span)
  {
    var a := SkipWhite(s, i);
    if a == |s| then Token(End, Span(a, a), a)
    else if s[a] == '>' && a + 1 < |s| && s[a + 1] == '>' then Token(Append, Span(a, a + 2), SkipWhite(s, a + 2))
    else if IsSymbol(s[a]) then Token(Symbol(s[a]), Span(a, a + 1), SkipWhite(s, a + 1))
    else Token(Word, Span(a, WordEnd(s, a)), SkipWhite(s, WordEnd(s, a)))
  }

  /** A whole word: its characters are, and the next one is not, word characters. */
  ghost predicate SpanOk(s: string, w: Span) {
    && w.start < w.end <= |s| && (forall k :: w.start <= k < w.end ==> IsWordChar(s[k]))
    && (w.end < |s| ==> !IsWordChar(s[w.end]))
  }

  /** peek at the next character, when the cursor is past white space. */
  predicate Peek(s: string, i: nat, toks: string)
    requires i <= |s|
  {
    i < |s| && s[i] in toks
  }

  // ----- commands

  /** open's mode and the descriptor: "<", ">" and ">>". */
  datatype Mode = Input | Output | AppendOutput

  datatype Redirection = Redirection(file: Span, mode: Mode)

  datatype Cmd =
    | Exec(args: seq<Span>)
    | Redir(cmd: Cmd, r: Redirection)
    | Pipe(left: Cmd, right: Cmd)
    | List(left: Cmd, right: Cmd)
    | Back(cmd: Cmd)

  ghost predicate CmdOk(s: string, c: Cmd) {
    match c
    case Exec(args) => |args| < MAXARGS && forall k :: 0 <= k < |args| ==> SpanOk(s, args[k])
    case Redir(d, r) => CmdOk(s, d) && SpanOk(s, r.file)
    case Pipe(left, right) => CmdOk(s, left) && CmdOk(s, right)
    case List(left, right) => CmdOk(s, left) && CmdOk(s, right)
    case Back(d) => CmdOk(s, d)
  }

  datatype Result<T> = Panic | Parsed(value: T, next: nat)

  ghost predicate RedirsOk(s: string, rs: seq<Redirection>) {
    forall k :: 0 <= k < |rs| ==> SpanOk(s, rs[k].file)
  }

  function ModeOf(t: Tok): Mode {
    if t == Symbol('<') then Input else if t == Append then AppendOutput else Output
  }

  /** parseredirs: the redirections found, the first one innermost. */
  function ParseRedirs(s: string, i: nat): (r: Result<seq<Redirection>>)
    requires i <= |s|
    ensures r.Parsed? ==> i <= r.next <= |s| && RedirsOk(s, r.value)
    decreases |s| - i
  {
    var a := SkipWhite(s, i);
    if !Peek(s, a, "<>") then Parsed([], a)
    else
      var t := GetToken(s, a);
      var w := GetToken(s, t.next);
      if !w.kind.Word? then Panic
      else
        var more := ParseRedirs(s, w.next);
        if more.Panic? then Panic else Parsed([Redirection(w.span, ModeOf(t.kind))] + more.value, more.next)
  }

  function Wrapped(c: Cmd, rs: seq<Redirection>): Cmd
    decreases |rs|
  {
    if rs == [] then c else Wrapped(Redir(c, rs[0]), rs[1..])
  }

  lemma {:induction false} WrappedOk(s: string, c: Cmd, rs: seq<Redirection>)
    requires CmdOk(s, c) && RedirsOk(s, rs)
    ensures CmdOk(s, Wrapped(c, rs))
    decreases |rs|
  {
    if rs != [] {
      WrappedOk(s, Redir(c, rs[0]), rs[1..]);
    }
  }

  datatype Line = Line(args: seq<Span>, redirs: seq<Redirection>)

  ghost predicate LineOk(s: string, l: Line) {
    |l.args| < MAXARGS && (forall k :: 0 <= k < |l.args| ==> SpanOk(s, l.args[k])) && RedirsOk(s, l.redirs)
  }

  lemma LineMore(s: string, l: Line, w: Span, rs: seq<Redirection>)
    requires SpanOk(s, w) && RedirsOk(s, rs) && |l.args| + 1 < MAXARGS
    ensures LineOk(s, l) ==> LineOk(s, Line(l.args + [w], l.redirs + rs))
  {
  }

  /** The loop of parseexec: words and redirections in any order. */
  function ParseArgs(s: string, l: Line, i: nat): (r: Result<Line>)
    requires i <= |s|
    ensures r.Parsed? ==> i <= r.next <= |s|
    ensures r.Parsed? && LineOk(s, l) ==> LineOk(s, r.value)
    decreases |s| - i
  {
    var a := SkipWhite(s, i);
    if Peek(s, a, "|)&;") then Parsed(l, a)
    else
      var t := GetToken(s, a);
      if t.kind.End? then Parsed(l, t.next)
      else if !t.kind.Word? || |l.args| + 1 >= MAXARGS then Panic
      else
        var rs := ParseRedirs(s, t.next);
        if rs.Panic? then Panic
        else
          LineMore(s, l, t.span, rs.value);
          ParseArgs(s, Line(l.args + [t.span], l.redirs + rs.value), rs.next)
  }

  function ParseExec(s: string, i: nat): (r: Result<Cmd>)
    requires i <= |s|
    ensures r.Parsed? ==> i <= r.next <= |s| && CmdOk(s, r.value)
    decreases |s| - i, 1
  {
    var a := SkipWhite(s, i);
    if Peek(s, a, "(") then ParseBlock(s, a)
    else
      var rs := ParseRedirs(s, a);
      if rs.Panic? then Panic
      else
        var l := ParseArgs(s, Line([], rs.value), rs.next);
        if l.Panic? then Panic
        else
          WrappedOk(s, Exec(l.value.args), l.value.redirs);
          Parsed(Wrapped(Exec(l.value.args), l.value.redirs), l.next)
  }

  /** parseblock, at a parenthesis. */
  function ParseBlock(s: string, i: nat): (r: Result<Cmd>)
    requires i < |s| && s[i] == '('
    ensures r.Parsed? ==> i < r.next <= |s| && CmdOk(s, r.value)
    decreases |s| - i, 0
  {
    var c := ParseLine(s, GetToken(s, i).next);
    if c.Panic? then Panic
    else
      var a := SkipWhite(s, c.next);
      if !Peek(s, a, ")") then Panic
      else
        var rs := ParseRedirs(s, GetToken(s, a).next);
        if rs.Panic? then Panic
        else
          WrappedOk(s, c.value, rs.value);
          Parsed(Wrapped(c.value, rs.value), rs.next)
  }

  function ParsePipe(s: string, i: nat): (r: Result<Cmd>)
    requires i <= |s|
    ensures r.Parsed? ==> i <= r.next <= |s| && CmdOk(s, r.value)
    decreases |s| - i, 2
  {
    var c := ParseExec(s, i);
    if c.Panic? then Panic
    else
      var a := SkipWhite(s, c.next);
      if !Peek(s, a, "|") then Parsed(c.value, a)
      else
        var more := ParsePipe(s, GetToken(s, a).next);
        if more.Panic? then Panic else Parsed(Pipe(c.value, more.value), more.next)
  }

  /** The loop of parseline over '&'. */
  function ParseBacks(s: string, c: Cmd, i: nat): (r: Result<Cmd>)
    requires i <= |s| && CmdOk(s, c)
    ensures r.Parsed? && i <= r.next <= |s| && CmdOk(s, r.value)
    decreases |s| - i
  {
    var a := SkipWhite(s, i);
    if !Peek(s, a, "&") then Parsed(c, a) else ParseBacks(s, Back(c), GetToken(s, a).next)
  }

  function ParseLine(s: string, i: nat): (r: Result<Cmd>)
    requires i <= |s|
    ensures r.Parsed? ==> i <= r.next <= |s| && CmdOk(s, r.value)
    decreases |s| - i, 3
  {
    var c := ParsePipe(s, i);
    if c.Panic? then Panic
    else
      var b := ParseBacks(s, c.value, c.next);
      var a := SkipWhite(s, b.next);
      if !Peek(s, a, ";") then Parsed(b.value, a)
      else
        var more := ParseLine(s, GetToken(s, a).next);
        if more.Panic? then Panic else Parsed(List(b.value, more.value), more.next)
  }

  /** parsecmd: the whole string, or a panic over what is left. */
  function ParseCmd(s: string): (r: Result<Cmd>)
    ensures r.Parsed? ==> r.next == |s| && CmdOk(s, r.value)
  {
    var c := ParseLine(s, 0);
    if c.Panic? || SkipWhite(s, c.next) != |s| then Panic else Parsed(c.value, |s|)
  }
}
