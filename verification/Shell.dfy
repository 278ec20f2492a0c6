/** The shell's parser as it runs: a cursor that gettoken and peek move over the line, loops over
    white space, words and redirections, and nulterminate's writes into the line. */
module Shell {
  import opened Basics
  import opened ShellSpec
  import opened ShellGrammar

  class Parser {
    const s: string
    var ps: nat

    constructor (line: string)
      ensures s == line && ps == 0
    {
      s, ps := line, 0;
    }

    /** The loop over white space in gettoken and peek. */
    method Skip(i: nat) returns (j: nat)
      requires i <= |s|
      ensures j == SkipWhite(s, i)
    {
      j := i;
      while j < |s| && IsWhite(s[j])
        invariant i <= j <= |s| && SkipWhite(s, i) == SkipWhite(s, j)
      {
        j := j + 1;
      }
    }

    method Gettoken() returns (t: Token)
      requires ps <= |s|
      modifies this`ps
      ensures t == GetToken(s, old(ps)) && ps == t.next <= |s|
    {
      var q := Skip(ps);
      var eq, kind := q, End;
      if q < |s| {
        match s[q]
        case '|' => eq, kind := q + 1, Symbol('|');
        case '(' => eq, kind := q + 1, Symbol('(');
        case ')' => eq, kind := q + 1, Symbol(')');
        case ';' => eq, kind := q + 1, Symbol(';');
        case '&' => eq, kind := q + 1, Symbol('&');
        case '<' => eq, kind := q + 1, Symbol('<');
        case '>' =>
          eq, kind := q + 1, Symbol('>');
          if eq < |s| && s[eq] == '>' {
            eq, kind := eq + 1, Append;
          }
        case _ =>
          kind := Word;
          while eq < |s| && !IsWhite(s[eq]) && !IsSymbol(s[eq])
            invariant q <= eq <= |s| && WordEnd(s, q) == WordEnd(s, eq)
          {
            eq := eq + 1;
          }
      }
      ps := Skip(eq);
      t := Token(kind, Span(q, eq), ps);
    }

    method Peeks(toks: string) returns (r: bool)
      requires ps <= |s|
      modifies this`ps
      ensures ps == SkipWhite(s, old(ps)) && r == Peek(s, ps, toks)
    {
      ps := Skip(ps);
      r := ps < |s| && s[ps] in toks;
    }

    /** parseredirs. */
    method Redirs() returns (r: Result<seq<Redirection>>)
      requires ps <= |s|
      modifies this`ps
      ensures r == ParseRedirs(s, old(ps)) && (r.Parsed? ==> ps == r.next)
    {
      hide ParseRedirs, GetToken, SkipWhite;
      var rs: seq<Redirection> := [];
      RedirsSkip(s, ps);
      var more := Peeks("<>");
      while more
        invariant ps <= |s| && SkipWhite(s, ps) == ps && more == Peek(s, ps, "<>")
        invariant ParseRedirs(s, old(ps)) == Behind(rs, ParseRedirs(s, ps))
        decreases |s| - ps
      {
        RedirsStep(s, ps);
        var t := Gettoken();
        var w := Gettoken();
        if !w.kind.Word? {
          return Panic;
        }
        BehindMore(rs, Redirection(w.span, ModeOf(t.kind)), ParseRedirs(s, ps));
        rs := rs + [Redirection(w.span, ModeOf(t.kind))];
        RedirsSkip(s, ps);
        more := Peeks("<>");
      }
      RedirsStep(s, ps);
      assert rs + [] == rs;
      r := Parsed(rs, ps);
    }

    /** parseexec: a block, or words and redirections.  The argument vector has room for every word
        and for the null behind the last. */
    method ReadExec() returns (r: Result<Cmd>)
      requires ps <= |s|
      modifies this`ps
      ensures r == ParseExec(s, old(ps)) && (r.Parsed? ==> ps == r.next)
      decreases |s| - ps, 1
    {
      SkipTwice(s, ps);
      var block := Peeks("(");
      if block {
        r := ReadBlock();
        return;
      }
      var rs := Redirs();
      if rs.Panic? {
        return Panic;
      }
      r := ReadArgs(rs.value);
    }

    method ReadArgs(redirs: seq<Redirection>) returns (r: Result<Cmd>)
      requires ps <= |s|
      modifies this`ps
      ensures var l := ParseArgs(s, Line([], redirs), old(ps));
              r == (if l.Panic? then Panic else Parsed(Wrapped(Exec(l.value.args), l.value.redirs), l.next)) && (r.Parsed? ==> ps == r.next)
    {
      hide ParseArgs, ParseRedirs, GetToken, SkipWhite, Wrapped;
      var argv := new Span[MAXARGS](_ => Span(0, 0));
      var argc, found := 0, redirs;
      ArgsSkip(s, Line([], redirs), ps);
      var stop := Peeks("|)&;");
      assert argv[..0] == [];
      while !stop
        invariant ps <= |s| && SkipWhite(s, ps) == ps && stop == Peek(s, ps, "|)&;") && argc < MAXARGS && fresh(argv)
        invariant ParseArgs(s, Line([], redirs), old(ps)) == ParseArgs(s, Line(argv[..argc], found), ps)
        decreases |s| - ps
      {
        ArgsNext(s, Line(argv[..argc], found), ps);
        var t := Gettoken();
        if t.kind.End? {
          break;
        }
        if !t.kind.Word? {
          return Panic;
        }
        ghost var before := argv[..argc];
        argv[argc] := t.span;
        argc := argc + 1;
        assert argv[..argc] == before + [t.span];
        if argc >= MAXARGS {
          return Panic;
        }
        var more := Redirs();
        if more.Panic? {
          return Panic;
        }
        found := found + more.value;
        ArgsSkip(s, Line(argv[..argc], found), ps);
        stop := Peeks("|)&;");
      }
      ghost var args := argv[..argc];
      ArgsNext(s, Line(args, found), ps);
      argv[argc] := Span(0, 0);
      assert argv[..argc] == args;
      r := Parsed(Wrapped(Exec(argv[..argc]), found), ps);
    }

    method ReadBlock() returns (r: Result<Cmd>)
      requires ps < |s| && s[ps] == '('
      modifies this`ps
      ensures r == ParseBlock(s, old(ps)) && (r.Parsed? ==> ps == r.next)
      decreases |s| - ps, 0
    {
      var open := Gettoken();
      var c := ReadLine();
      if c.Panic? {
        return Panic;
      }
      var closed := Peeks(")");
      if !closed {
        return Panic;
      }
      var close := Gettoken();
      var rs := Redirs();
      if rs.Panic? {
        return Panic;
      }
      r := Parsed(Wrapped(c.value, rs.value), ps);
    }

    method ReadPipe() returns (r: Result<Cmd>)
      requires ps <= |s|
      modifies this`ps
      ensures r == ParsePipe(s, old(ps)) && (r.Parsed? ==> ps == r.next)
      decreases |s| - ps, 2
    {
      var c := ReadExec();
      if c.Panic? {
        return Panic;
      }
      var bar := Peeks("|");
      if !bar {
        return Parsed(c.value, ps);
      }
      var t := Gettoken();
      var more := ReadPipe();
      r := if more.Panic? then Panic else Parsed(Pipe(c.value, more.value), ps);
    }

    method ReadLine() returns (r: Result<Cmd>)
      requires ps <= |s|
      modifies this`ps
      ensures r == ParseLine(s, old(ps)) && (r.Parsed? ==> ps == r.next)
      decreases |s| - ps, 3
    {
      var p := ReadPipe();
      if p.Panic? {
        return Panic;
      }
      var c := Backs(p.value);
      var semi := Peeks(";");
      if !semi {
        return Parsed(c, ps);
      }
      var t := Gettoken();
      var more := ReadLine();
      r := if more.Panic? then Panic else Parsed(List(c, more.value), ps);
    }

    /** parseline's loop over '&'. */
    method Backs(first: Cmd) returns (c: Cmd)
      requires ps <= |s| && CmdOk(s, first)
      modifies this`ps
      ensures ParseBacks(s, first, old(ps)) == Parsed(c, ps) && ps <= |s|
    {
      c := first;
      SkipTwice(s, ps);
      var amp := Peeks("&");
      while amp
        invariant ps <= |s| && SkipWhite(s, ps) == ps && amp == Peek(s, ps, "&") && CmdOk(s, c)
        invariant ParseBacks(s, first, old(ps)) == ParseBacks(s, c, ps)
        decreases |s| - ps
      {
        var t := Gettoken();
        c := Back(c);
        SkipTwice(s, ps);
        amp := Peeks("&");
      }
    }

    /** parsecmd, without nulterminate: the whole line, or a panic. */
    method ReadCmd() returns (r: Result<Cmd>)
      requires ps == 0
      modifies this`ps
      ensures r == ParseCmd(s)
    {
      var c := ReadLine();
      if c.Panic? {
        return Panic;
      }
      var none := Peeks("");
      r := if ps != |s| then Panic else Parsed(c.value, |s|);
    }
  }

  lemma RedirsSkip(s: string, i: nat)
    requires i <= |s|
    ensures SkipWhite(s, SkipWhite(s, i)) == SkipWhite(s, i) && ParseRedirs(s, i) == ParseRedirs(s, SkipWhite(s, i))
    ensures ParseRedirs(s, i) == Behind([], ParseRedirs(s, SkipWhite(s, i)))
  {
    SkipTwice(s, i);
    var r := ParseRedirs(s, i);
    assert r.Parsed? ==> [] + r.value == r.value;
  }

  /** A result with redirections already found before it. */
  function Behind(rs: seq<Redirection>, more: Result<seq<Redirection>>): Result<seq<Redirection>> {
    if more.Panic? then Panic else Parsed(rs + more.value, more.next)
  }

  lemma RedirsStep(s: string, i: nat)
    requires i <= |s| && SkipWhite(s, i) == i
    ensures !Peek(s, i, "<>") ==> ParseRedirs(s, i) == Parsed([], i)
    ensures Peek(s, i, "<>") ==>
              var t := GetToken(s, i);
              var w := GetToken(s, t.next);
              ParseRedirs(s, i) == if !w.kind.Word? then Panic else Behind([Redirection(w.span, ModeOf(t.kind))], ParseRedirs(s, w.next))
  {
  }

  lemma BehindMore(rs: seq<Redirection>, r: Redirection, more: Result<seq<Redirection>>)
    ensures Behind(rs, Behind([r], more)) == Behind(rs + [r], more)
  {
    if more.Parsed? {
      assert rs + ([r] + more.value) == (rs + [r]) + more.value;
    }
  }

  lemma ArgsSkip(s: string, l: Line, i: nat)
    requires i <= |s|
    ensures SkipWhite(s, SkipWhite(s, i)) == SkipWhite(s, i) && ParseArgs(s, l, i) == ParseArgs(s, l, SkipWhite(s, i))
  {
    SkipTwice(s, i);
  }

  /** One round of parseexec's loop. */
  lemma ArgsNext(s: string, l: Line, i: nat)
    requires i <= |s| && SkipWhite(s, i) == i
    ensures Peek(s, i, "|)&;") ==> ParseArgs(s, l, i) == Parsed(l, i)
    ensures !Peek(s, i, "|)&;") ==>
              var t := GetToken(s, i);
              && (t.kind.End? ==> ParseArgs(s, l, i) == Parsed(l, t.next) && t.next == i)
              && (!t.kind.End? && (!t.kind.Word? || |l.args| + 1 >= MAXARGS) ==> ParseArgs(s, l, i) == Panic)
              && (t.kind.Word? && |l.args| + 1 < MAXARGS ==>
                    var rs := ParseRedirs(s, t.next);
                    ParseArgs(s, l, i) == if rs.Panic? then Panic else ParseArgs(s, Line(l.args + [t.span], l.redirs + rs.value), rs.next))
  {
  }

  // ----- nulterminate

  /** Where a command's words and file names end. */
  ghost function Ends(c: Cmd): set<nat> {
    match c
    case Exec(args) => WordEnds(args, |args|)
    case Redir(d, r) => Ends(d) + {r.file.end}
    case Pipe(left, right) => Ends(left) + Ends(right)
    case List(left, right) => Ends(left) + Ends(right)
    case Back(d) => Ends(d)
  }

  /** The line, which is s and its NUL, with NULs at some places. */
  ghost predicate Cleared(b: seq<char>, s: string, ends: set<nat>) {
    |b| == |s| + 1 && forall k :: 0 <= k <= |s| ==> b[k] == if k in ends || k == |s| then '\0' else s[k]
  }

  lemma ClearedOne(b: seq<char>, s: string, ends: set<nat>, k: nat)
    requires Cleared(b, s, ends) && k <= |s|
    ensures Cleared(b[k := '\0'], s, ends + {k})
  {
  }

  /** Where the first i words end. */
  ghost function WordEnds(args: seq<Span>, i: nat): set<nat>
    requires i <= |args|
  {
    set k | 0 <= k < i :: args[k].end
  }

  lemma WordEndsNext(args: seq<Span>, i: nat, ends: set<nat>)
    requires i < |args|
    ensures ends + WordEnds(args, i) + {args[i].end} == ends + WordEnds(args, i + 1)
  {
  }

  method Terminate(buf: array<char>, k: nat, ghost s: string, ghost ends: set<nat>)
    requires Cleared(buf[..], s, ends) && k <= |s|
    modifies buf
    ensures Cleared(buf[..], s, ends + {k})
  {
    ClearedOne(buf[..], s, ends, k);
    ghost var b := buf[..];
    buf[k] := '\0';
    assert buf[..] == b[k := '\0'];
  }

  /** The loop over the arguments of one command. */
  method TerminateWords(buf: array<char>, args: seq<Span>, ghost s: string, ghost ends: set<nat>)
    requires Cleared(buf[..], s, ends) && forall i :: 0 <= i < |args| ==> args[i].end <= |s|
    modifies buf
    ensures Cleared(buf[..], s, ends + WordEnds(args, |args|))
  {
    hide Cleared;
    assert ends + WordEnds(args, 0) == ends;
    for i := 0 to |args|
      invariant Cleared(buf[..], s, ends + WordEnds(args, i))
    {
      Terminate(buf, args[i].end, s, ends + WordEnds(args, i));
      WordEndsNext(args, i, ends);
    }
  }

  /** nulterminate: a NUL behind every word, and nothing else. */
  method Nulterminate(buf: array<char>, c: Cmd, ghost s: string, ghost ends: set<nat>)
    requires CmdOk(s, c) && Cleared(buf[..], s, ends)
    modifies buf
    ensures Cleared(buf[..], s, ends + Ends(c))
    decreases c
  {
    hide Cleared;
    match c
    case Exec(args) =>
      TerminateWords(buf, args, s, ends);
    case Redir(d, r) =>
      Nulterminate(buf, d, s, ends);
      Terminate(buf, r.file.end, s, ends + Ends(d));
      assert ends + Ends(d) + {r.file.end} == ends + Ends(c);
    case Pipe(left, right) =>
      Nulterminate(buf, left, s, ends);
      Nulterminate(buf, right, s, ends + Ends(left));
      assert ends + Ends(left) + Ends(right) == ends + Ends(c);
    case List(left, right) =>
      Nulterminate(buf, left, s, ends);
      Nulterminate(buf, right, s, ends + Ends(left));
      assert ends + Ends(left) + Ends(right) == ends + Ends(c);
    case Back(d) =>
      Nulterminate(buf, d, s, ends);
  }

  /** What exec and open will see. */
  ghost function Seen(b: seq<char>, c: Cmd): Tree {
    match c
    case Exec(args) => TExec(seq(|args|, k requires 0 <= k < |args| => CString(b, args[k].start)))
    case Redir(d, r) => TRedir(Seen(b, d), CString(b, r.file.start), r.mode)
    case Pipe(left, right) => TPipe(Seen(b, left), Seen(b, right))
    case List(left, right) => TList(Seen(b, left), Seen(b, right))
    case Back(d) => TBack(Seen(b, d))
  }

  /** No place in ends is inside a word. */
  ghost predicate BetweenWords(s: string, ends: set<nat>) {
    forall k :: k in ends ==> k <= |s| && (k < |s| ==> !IsWordChar(s[k]))
  }

  lemma {:induction false} EndsBetween(s: string, c: Cmd)
    requires CmdOk(s, c)
    ensures BetweenWords(s, Ends(c))
  {
    match c
    case Exec(args) =>
    case Redir(d, r) => EndsBetween(s, d);
    case Pipe(left, right) => {
      EndsBetween(s, left);
      EndsBetween(s, right);
    }
    case List(left, right) => {
      EndsBetween(s, left);
      EndsBetween(s, right);
    }
    case Back(d) => EndsBetween(s, d);
  }

  lemma {:induction false} WordSeen(b: seq<char>, s: string, ends: set<nat>, w: Span, i: nat)
    requires Cleared(b, s, ends) && NulFree(s) && SpanOk(s, w) && BetweenWords(s, ends) && w.end in ends && w.start <= i <= w.end
    ensures CString(b, i) == s[i..w.end]
    decreases w.end - i
  {
    if i < w.end {
      assert i !in ends;
      WordSeen(b, s, ends, w, i + 1);
      assert s[i..w.end] == [s[i]] + s[i + 1..w.end];
    }
  }

  /** After nulterminate every argument and file name is the token that was scanned. */
  lemma {:induction false} StringsAreTokens(b: seq<char>, s: string, ends: set<nat>, c: Cmd)
    requires CmdOk(s, c) && NulFree(s) && Cleared(b, s, ends) && Ends(c) <= ends && BetweenWords(s, ends)
    ensures Seen(b, c) == Text(s, c)
  {
    match c
    case Exec(args) => {
      forall k | 0 <= k < |args|
        ensures CString(b, args[k].start) == s[args[k].start..args[k].end]
      {
        WordSeen(b, s, ends, args[k], args[k].start);
      }
      assert Seen(b, c).args == Text(s, c).args;
    }
    case Redir(d, r) => {
      StringsAreTokens(b, s, ends, d);
      WordSeen(b, s, ends, r.file, r.file.start);
    }
    case Pipe(left, right) => {
      StringsAreTokens(b, s, ends, left);
      StringsAreTokens(b, s, ends, right);
    }
    case List(left, right) => {
      StringsAreTokens(b, s, ends, left);
      StringsAreTokens(b, s, ends, right);
    }
    case Back(d) => StringsAreTokens(b, s, ends, d);
  }

  /** parsecmd on a line: it accepts exactly the sentences of the language, and what the program then
      finds in the buffer is what the sentence means. */
  method Parse(buf: array<char>, line: string) returns (r: Result<Cmd>)
    requires buf.Length == |line| + 1 && buf[..] == line + "\0" && NulFree(line)
    modifies buf
    ensures r == ParseCmd(line)
    ensures r.Parsed? ==> Seen(buf[..], r.value) == Text(line, r.value)
    ensures r.Parsed? <==> exists l :: Sentence(line, l)
    ensures forall l :: Sentence(line, l) ==> r.Parsed? && Seen(buf[..], r.value) == MeanLine(l)
    ensures forall k :: 0 <= k < |line| && IsWordChar(line[k]) && r.Parsed? ==> buf[k] == line[k]
  {
    hide ParseCmd, Sentence, MeanLine;
    AcceptsExactly(line);
    var p := new Parser(line);
    r := p.ReadCmd();
    if r.Parsed? {
      Nulterminate(buf, r.value, line, {});
      EndsBetween(line, r.value);
      assert {} + Ends(r.value) == Ends(r.value);
      StringsAreTokens(buf[..], line, Ends(r.value), r.value);
    }
  }
}
