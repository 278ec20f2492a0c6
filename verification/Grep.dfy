/** grep: the matcher for literals, '.', 'c*', a leading '^' and a final '$', and the loop that cuts
    its input into lines.  A C string is the sequence of characters before its NUL; a pointer into
    one is the suffix it points at. */
module Grep {
  import opened Basics

  // ----- what patterns mean

  /** A pattern after its '^': single characters, repeated ones, and the end of the text. */
  datatype Re = Nothing | AtEnd | One(c: char, rest: Re) | Many(c: char, rest: Re)

  function Parse(re: string): Re {
    if re == [] then Nothing
    else if |re| > 1 && re[1] == '*' then Many(re[0], Parse(re[2..]))
    else if re == "$" then AtEnd
    else One(re[0], Parse(re[1..]))
  }

  /** How a pattern is written. */
  function Written(r: Re): string {
    match r
    case Nothing => ""
    case AtEnd => "$"
    case One(c, rest) => [c] + Written(rest)
    case Many(c, rest) => [c, '*'] + Written(rest)
  }

  /** What cannot be written: a character on its own before one that is '*', and a '$' on its own at the
      end. */
  predicate Writable(r: Re) {
    match r
    case Nothing => true
    case AtEnd => true
    case One(c, rest) => Writable(rest) && !((rest.One? || rest.Many?) && rest.c == '*') && !(c == '$' && rest.Nothing?)
    case Many(_, rest) => Writable(rest)
  }

  /** Every text is read as the one pattern that is written so. */
  lemma {:induction false} ParseExactly(re: string, r: Re)
    ensures Parse(re) == r <==> Written(r) == re && Writable(r)
    decreases |re|
  {
    if Written(r) == re && Writable(r) {
      ParseWritten(r);
    }
    WrittenParse(re);
  }

  lemma {:induction false} WrittenParse(re: string)
    ensures Written(Parse(re)) == re && Writable(Parse(re))
    decreases |re|
  {
    if re == [] {
    } else if |re| > 1 && re[1] == '*' {
      WrittenParse(re[2..]);
      assert re == [re[0], re[1]] + re[2..];
    } else if re != "$" {
      WrittenParse(re[1..]);
      assert re == [re[0]] + re[1..];
    }
  }

  lemma {:induction false} ParseWritten(r: Re)
    requires Writable(r)
    ensures Parse(Written(r)) == r
  {
    match r
    case Nothing =>
    case AtEnd =>
    case One(c, rest) => {
      ParseWritten(rest);
      var re := Written(r);
      assert re[1..] == Written(rest) && |re| == 1 + |Written(rest)|;
      if rest != Nothing {
        assert re[1] == Written(rest)[0] == if rest == AtEnd then '$' else rest.c;
      }
      assert re[0] == c && ("$"[0] == c || re != "$");
    }
    case Many(c, rest) => {
      ParseWritten(rest);
      var re := Written(r);
      assert re[2..] == Written(rest) && re[1] == '*';
    }
  }

  predicate Hits(c: char, x: char) {
    c == '.' || c == x
  }

  ghost predicate AllHit(c: char, w: string) {
    forall i :: 0 <= i < |w| ==> Hits(c, w[i])
  }

  /** The word w, which does or does not end the text, is one that r describes. */
  ghost predicate Describes(r: Re, w: string, atEnd: bool) {
    match r
    case Nothing => w == []
    case AtEnd => w == [] && atEnd
    case One(c, rest) => w != [] && Hits(c, w[0]) && Describes(rest, w[1..], atEnd)
    case Many(c, rest) => exists j :: 0 <= j <= |w| && AllHit(c, w[..j]) && Describes(rest, w[j..], atEnd)
  }

  /** Some word at the start of t is described by r. */
  ghost predicate Here(r: Re, t: string) {
    exists k :: 0 <= k <= |t| && Describes(r, t[..k], k == |t|)
  }

  /** The meaning of a pattern: with '^' a word at the start of the text, else one anywhere. */
  ghost predicate Matches(re: string, t: string) {
    if re != [] && re[0] == '^' then Here(Parse(re[1..]), t)
    else exists i :: 0 <= i <= |t| && Here(Parse(re), t[i..])
  }

  lemma HereOne(c: char, rest: Re, t: string)
    ensures Here(One(c, rest), t) <==> t != [] && Hits(c, t[0]) && Here(rest, t[1..])
  {
    if k :| 0 <= k <= |t| && Describes(One(c, rest), t[..k], k == |t|) {
      assert t[..k][1..] == t[1..][..k - 1];
    }
    if t != [] && Hits(c, t[0]) && Here(rest, t[1..]) {
      var k :| 0 <= k <= |t[1..]| && Describes(rest, t[1..][..k], k == |t[1..]|);
      assert t[..k + 1][1..] == t[1..][..k];
      assert Describes(One(c, rest), t[..k + 1], k + 1 == |t|);
    }
  }

  lemma HereMany(c: char, rest: Re, t: string)
    ensures Here(Many(c, rest), t) <==> Here(rest, t) || (t != [] && Hits(c, t[0]) && Here(Many(c, rest), t[1..]))
  {
    if k :| 0 <= k <= |t| && Describes(Many(c, rest), t[..k], k == |t|) {
      ManyUnfolds(c, rest, t, k);
    }
    if k :| 0 <= k <= |t| && Describes(rest, t[..k], k == |t|) {
      assert t[..k][0..] == t[..k];
      assert AllHit(c, t[..k][..0]);
      assert Describes(Many(c, rest), t[..k], k == |t|);
    }
    if t != [] && Hits(c, t[0]) && Here(Many(c, rest), t[1..]) {
      var k :| 0 <= k <= |t[1..]| && Describes(Many(c, rest), t[1..][..k], k == |t[1..]|);
      ManyFolds(c, rest, t, k);
    }
  }

  lemma ManyUnfolds(c: char, rest: Re, t: string, k: nat)
    requires k <= |t| && Describes(Many(c, rest), t[..k], k == |t|)
    ensures Here(rest, t) || (t != [] && Hits(c, t[0]) && Here(Many(c, rest), t[1..]))
  {
    var w := t[..k];
    var j :| 0 <= j <= |w| && AllHit(c, w[..j]) && Describes(rest, w[j..], k == |t|);
    if j == 0 {
      assert w[0..] == t[..k];
    } else {
      assert Hits(c, w[..j][0]);
      var w' := t[1..][..k - 1];
      assert w' == w[1..] && w'[j - 1..] == w[j..];
      var head := w'[..j - 1];
      forall i | 0 <= i < j - 1
        ensures Hits(c, head[i])
      {
        assert head[i] == w[..j][i + 1];
      }
      assert Describes(Many(c, rest), w', k - 1 == |t[1..]|);
    }
  }

  lemma FoldHead(c: char, t: string, k: nat, j: nat)
    requires t != [] && Hits(c, t[0]) && j <= k <= |t| - 1 && AllHit(c, t[1..][..k][..j])
    ensures AllHit(c, t[..k + 1][..j + 1])
  {
    var head, head' := t[..k + 1][..j + 1], t[1..][..k][..j];
    forall i | 0 <= i < j + 1
      ensures Hits(c, head[i])
    {
      assert head[i] == t[i];
      if i > 0 {
        assert head'[i - 1] == t[i];
      }
    }
  }

  lemma FoldTail(t: string, k: nat, j: nat)
    requires t != [] && j <= k <= |t| - 1
    ensures t[..k + 1][j + 1..] == t[1..][..k][j..]
  {
    var a, b := t[..k + 1][j + 1..], t[1..][..k][j..];
    forall i | 0 <= i < k - j
      ensures a[i] == b[i]
    {
      assert a[i] == t[j + 1 + i] == t[1..][j + i] == b[i];
    }
    assert |a| == |b|;
  }

  lemma ManyFolds(c: char, rest: Re, t: string, k: nat)
    requires t != [] && Hits(c, t[0]) && k <= |t| - 1 && Describes(Many(c, rest), t[1..][..k], k == |t| - 1)
    ensures Here(Many(c, rest), t)
  {
    hide AllHit, Hits;
    var w, w' := t[..k + 1], t[1..][..k];
    var j :| 0 <= j <= |w'| && AllHit(c, w'[..j]) && Describes(rest, w'[j..], k == |t| - 1);
    FoldHead(c, t, k, j);
    FoldTail(t, k, j);
    assert Describes(Many(c, rest), w, k + 1 == |t|);
  }

  lemma HereEnds(t: string)
    ensures Here(Nothing, t) && (Here(AtEnd, t) <==> t == [])
  {
    assert t[..0] == [];
    assert Describes(Nothing, t[..0], 0 == |t|);
    if t == [] {
      assert Describes(AtEnd, t[..0], 0 == |t|);
    }
  }

  // ----- the matcher

  method MatchHere(re: string, text: string) returns (r: bool)
    ensures r <==> Here(Parse(re), text)
    decreases |re|, |text|
  {
    HereEnds(text);
    if re == [] {
      return true;
    }
    if |re| > 1 && re[1] == '*' {
      r := MatchStar(re[0], re[2..], text);
      return;
    }
    if re == "$" {
      return text == [];
    }
    HereOne(re[0], Parse(re[1..]), text);
    if text != [] && (re[0] == '.' || re[0] == text[0]) {
      r := MatchHere(re[1..], text[1..]);
      return;
    }
    return false;
  }

  method MatchStar(c: char, re: string, text: string) returns (r: bool)
    ensures r <==> Here(Many(c, Parse(re)), text)
    decreases |re|, |text| + 1
  {
    var t := text;
    while true
      invariant Here(Many(c, Parse(re)), text) <==> Here(Many(c, Parse(re)), t)
      decreases |t|
    {
      HereMany(c, Parse(re), t);
      r := MatchHere(re, t);
      if r {
        return true;
      }
      if t == [] || !(t[0] == c || c == '.') {
        return false;
      }
      t := t[1..];
    }
  }

  method Match(re: string, text: string) returns (r: bool)
    ensures r <==> Matches(re, text)
  {
    if re != [] && re[0] == '^' {
      r := MatchHere(re[1..], text);
      return;
    }
    var i := 0;
    while true
      invariant 0 <= i <= |text| && forall k :: 0 <= k < i ==> !Here(Parse(re), text[k..])
      decreases |text| - i
    {
      r := MatchHere(re, text[i..]);
      if r {
        return true;
      }
      if i == |text| {
        return false;
      }
      i := i + 1;
    }
  }

  // ----- lines

  ghost predicate NoNewline(s: string) {
    forall i :: 0 <= i < |s| ==> s[i] != '\n'
  }

  /** The index of the first newline, or the length. */
  function Newline(s: string): (i: nat)
    ensures i <= |s| && NoNewline(s[..i]) && (i < |s| ==> s[i] == '\n')
  {
    if s == [] || s[0] == '\n' then 0
    else
      var i := Newline(s[1..]);
      assert s[..i + 1] == [s[0]] + s[1..][..i];
      i + 1
  }

  /** The newline-terminated lines of s, without their newlines. */
  function Lines(s: string): seq<string> {
    var i := Newline(s);
    if i == |s| then [] else [s[..i]] + Lines(s[i + 1..])
  }

  /** What comes after the last newline. */
  function Rest(s: string): string {
    var i := Newline(s);
    if i == |s| then s else Rest(s[i + 1..])
  }

  lemma NewlineAt(l: string, s: string)
    requires NoNewline(l)
    ensures Newline(l + "\n" + s) == |l|
  {
    var t := l + "\n" + s;
    var i := Newline(t);
    assert t[|l|] == '\n' && forall k :: 0 <= k < |l| ==> t[k] == l[k];
  }

  lemma NoLines(s: string)
    requires NoNewline(s)
    ensures Lines(s) == [] && Rest(s) == s
  {
  }

  lemma LineFirst(l: string, s: string)
    requires NoNewline(l)
    ensures Lines(l + "\n" + s) == [l] + Lines(s) && Rest(l + "\n" + s) == Rest(s)
  {
    NewlineAt(l, s);
    var t := l + "\n" + s;
    assert t[..|l|] == l && t[|l| + 1..] == s;
  }

  lemma FirstLine(a: string, b: string, i: nat)
    requires i < |a| && a[i] == '\n'
    ensures a == a[..i] + "\n" + a[i + 1..] && a + b == a[..i] + "\n" + (a[i + 1..] + b)
  {
  }

  lemma Regroup(l: string, x: seq<string>, y: seq<string>)
    ensures [l] + (x + y) == [l] + x + y
  {
  }

  /** Cutting into lines can go on with what was left. */
  lemma {:induction false} LinesAppend(a: string, b: string)
    ensures Lines(a + b) == Lines(a) + Lines(Rest(a) + b) && Rest(a + b) == Rest(Rest(a) + b)
    decreases |a|
  {
    hide Lines, Rest, Newline, NoNewline;
    var i := Newline(a);
    if i == |a| {
      assert a[..i] == a;
      NoLines(a);
    } else {
      var l, a' := a[..i], a[i + 1..];
      FirstLine(a, b, i);
      LineFirst(l, a');
      LineFirst(l, a' + b);
      LinesAppend(a', b);
      Regroup(l, Lines(a'), Lines(Rest(a') + b));
    }
  }

  lemma {:induction false} RestShort(s: string)
    ensures NoNewline(Rest(s)) && |Rest(s)| <= |s|
    decreases |s|
  {
    var i := Newline(s);
    if i < |s| {
      RestShort(s[i + 1..]);
    } else {
      assert s[..i] == s;
    }
  }

  // ----- what grep is to print

  /** The lines that match, each with its newline. */
  ghost function Select(re: string, lines: seq<string>): seq<string> {
    if lines == [] then [] else (if Matches(re, lines[0]) then [lines[0] + "\n"] else []) + Select(re, lines[1..])
  }

  lemma {:induction false} SelectAppend(re: string, a: seq<string>, b: seq<string>)
    ensures Select(re, a + b) == Select(re, a) + Select(re, b)
  {
    if a == [] {
      assert a + b == b;
    } else {
      assert (a + b)[1..] == a[1..] + b;
      SelectAppend(re, a[1..], b);
    }
  }

  lemma SelectOne(re: string, l: string)
    ensures Select(re, [l]) == if Matches(re, l) then [l + "\n"] else []
  {
  }

  /** The lines before the first one that does not fit into the buffer with its newline and NUL. */
  ghost function Fitting(lines: seq<string>): seq<string> {
    if lines == [] || |lines[0]| > BUFSIZE - 2 then [] else [lines[0]] + Fitting(lines[1..])
  }

  ghost predicate AllFit(lines: seq<string>) {
    forall i :: 0 <= i < |lines| ==> |lines[i]| <= BUFSIZE - 2
  }

  lemma {:induction false} FittingAppend(a: seq<string>, b: seq<string>)
    requires AllFit(a)
    ensures Fitting(a + b) == a + Fitting(b)
  {
    if a == [] {
      assert a + b == b;
    } else {
      assert (a + b)[1..] == a[1..] + b;
      FittingAppend(a[1..], b);
    }
  }

  /** If reading stopped, at the end of the input or with a full buffer, all fitting lines are done. */
  lemma Stopped(a: string, b: string)
    requires AllFit(Lines(a)) && (b == [] || |Rest(a)| == BUFSIZE - 1)
    ensures Fitting(Lines(a + b)) == Lines(a)
  {
    var r := Rest(a);
    RestShort(a);
    LinesAppend(a, b);
    FittingAppend(Lines(a), Lines(r + b));
    if b == [] {
      assert r + b == r;
      NoLines(r);
    } else {
      assert forall k :: 0 <= k < |r| ==> (r + b)[k] == r[k];
    }
  }

  // ----- grep

  const BUFSIZE := 1024

  /** strchr(buf + p, newline), in a buffer that holds s from p on and a NUL behind it: the index
      found, or |s| for none. */
  method Strchr(buf: array<char>, p: nat, ghost s: string) returns (q: nat)
    requires p <= |s| < buf.Length && buf[|s|] == '\0' && NulFree(s) && forall k :: p <= k < |s| ==> buf[k] == s[k]
    ensures p <= q <= |s| && NoNewline(s[p..q]) && (q < |s| <==> buf[q] == '\n')
  {
    q := p;
    while buf[q] != '\n'
      invariant p <= q <= |s| && forall k :: p <= k < q ==> s[k] != '\n'
      decreases |s| - q
    {
      if buf[q] == '\0' {
        return;
      }
      q := q + 1;
    }
  }

  lemma NextLine(s: string, p: nat, q: nat)
    requires p <= q < |s| && s[q] == '\n' && NoNewline(s[p..q])
    ensures Lines(s[p..]) == [s[p..q]] + Lines(s[q + 1..]) && Rest(s[p..]) == Rest(s[q + 1..])
  {
    assert s[p..] == s[p..q] + "\n" + s[q + 1..];
    LineFirst(s[p..q], s[q + 1..]);
  }

  /** One line l: cut off by a NUL, matched, and printed with its newline back. */
  method EatLine(re: string, buf: array<char>, p: nat, q: nat, ghost l: string) returns (printed: seq<string>)
    requires p <= q < buf.Length && l == buf[p..q] && NulFree(l)
    modifies buf
    ensures printed == Select(re, [l])
    ensures forall k :: 0 <= k < buf.Length && k != q ==> buf[k] == old(buf[k])
  {
    buf[q] := '\0';
    assert forall k :: p <= k < q ==> buf[k] == l[k - p];
    assert buf[..][p..q] == l;
    CStringIs(buf[..], p, q);
    SelectOne(re, l);
    var found := Match(re, CString(buf[..], p));
    printed := [];
    if found {
      buf[q] := '\n';
      assert buf[p..q + 1] == l + "\n";
      printed := [buf[p..q + 1]];
    }
  }

  /** The buffer holds s from p on, and a NUL behind it. */
  ghost predicate Holds(buf: array<char>, p: nat, s: string)
    reads buf
  {
    p <= |s| < buf.Length && buf[|s|] == '\0' && forall k :: p <= k < |s| ==> buf[k] == s[k]
  }

  /** The lines of s are those in done and those from p on. */
  ghost predicate CutAt(s: string, done: seq<string>, p: nat) {
    p <= |s| && Lines(s) == done + Lines(s[p..]) && Rest(s) == Rest(s[p..]) && AllFit(done)
  }

  lemma CutNone(re: string, s: string)
    ensures CutAt(s, [], 0) && Select(re, []) == []
  {
    assert s[0..] == s;
  }

  lemma CutOne(s: string, done: seq<string>, p: nat, q: nat)
    requires CutAt(s, done, p) && p <= q < |s| < BUFSIZE && s[q] == '\n' && NoNewline(s[p..q])
    ensures CutAt(s, done + [s[p..q]], q + 1)
  {
    hide Lines, Rest, Newline;
    NextLine(s, p, q);
    var l, rest := s[p..q], Lines(s[q + 1..]);
    assert done + ([l] + rest) == (done + [l]) + rest;
  }

  lemma CutAll(s: string, done: seq<string>, p: nat)
    requires CutAt(s, done, p) && NoNewline(s[p..])
    ensures Lines(s) == done && Rest(s) == s[p..] && AllFit(done)
  {
    NoLines(s[p..]);
  }

  /** The inner loop: all the lines in the buffer. */
  method EatLines(re: string, buf: array<char>, ghost s: string) returns (p: nat, out: seq<string>)
    requires Holds(buf, 0, s) && NulFree(s) && |s| < BUFSIZE
    modifies buf
    ensures Holds(buf, p, s) && out == Select(re, Lines(s)) && s[p..] == Rest(s) && AllFit(Lines(s))
  {
    hide CutAt, Lines, Rest, Newline, Select, Matches;
    p, out := 0, [];
    ghost var done: seq<string> := [];
    CutNone(re, s);
    var q := Strchr(buf, p, s);
    while buf[q] == '\n'
      invariant Holds(buf, p, s) && CutAt(s, done, p) && out == Select(re, done)
      invariant p <= q <= |s| && NoNewline(s[p..q]) && (q < |s| <==> buf[q] == '\n')
      decreases |s| - p
    {
      ghost var l := s[p..q];
      CutOne(s, done, p, q);
      SelectAppend(re, done, [l]);
      var printed := EatLine(re, buf, p, q, l);
      out, done, p := out + printed, done + [l], q + 1;
      q := Strchr(buf, p, s);
    }
    CutAll(s, done, p);
  }

  method Memmove(buf: array<char>, p: nat, n: nat)
    requires p + n <= buf.Length
    modifies buf
    ensures buf[..n] == old(buf[p..p + n])
  {
    for i := 0 to n
      invariant forall k :: 0 <= k < i ==> buf[k] == old(buf[p + k])
      invariant forall k :: i <= k < buf.Length ==> buf[k] == old(buf[k])
    {
      buf[i] := buf[p + i];
    }
  }

  /** read: some of the next characters, as many as it likes but at least one if it is asked for any
      and there are any. */
  method Read(buf: array<char>, m: nat, room: nat, next: string) returns (n: nat)
    requires m + room <= buf.Length
    modifies buf
    ensures n <= room && n <= |next| && (n == 0 ==> room == 0 || next == [])
    ensures buf[..m + n] == old(buf[..m]) + next[..n]
  {
    var most := if room < |next| then room else |next|;
    n :| n <= most && (most > 0 ==> n > 0);
    for i := 0 to n
      invariant forall k :: 0 <= k < m ==> buf[k] == old(buf[k])
      invariant forall k :: 0 <= k < i ==> buf[m + k] == next[k]
    {
      buf[m + i] := next[i];
    }
  }

  /** grep on an input without NULs: it prints exactly the matching lines among those before the
      first line of more than 1022 characters, however read cuts the input. */
  method Grep(re: string, input: string, buf: array<char>) returns (out: seq<string>)
    requires buf.Length == BUFSIZE && NulFree(input)
    modifies buf
    ensures out == Select(re, Fitting(Lines(input)))
  {
    hide Lines, Rest, Newline, Select, Fitting, Matches;
    out := [];
    var m: nat, pos: nat := 0, 0;
    ghost var a := "";
    CutNone(re, a);
    NoLines(a);
    while true
      invariant m < BUFSIZE && pos <= |input| && a == input[..pos] && buf[..m] == Rest(a)
      invariant out == Select(re, Lines(a)) && AllFit(Lines(a))
      decreases |input| - pos
    {
      var n := Read(buf, m, BUFSIZE - m - 1, input[pos..]);
      if n == 0 {
        assert a + input[pos..] == input;
        Stopped(a, input[pos..]);
        return;
      }
      var more, m' := Chunk(re, buf, m, n, input[pos..pos + n], a);
      out, m, pos := out + more, m', pos + n;
      assert input[..pos] == a + input[pos - n..pos];
      a := input[..pos];
    }
  }

  /** The body of the outer loop after reading a chunk. */
  method Chunk(re: string, buf: array<char>, m: nat, n: nat, chunk: string, ghost a: string) returns (out: seq<string>, m': nat)
    requires buf.Length == BUFSIZE && m + n < BUFSIZE && |chunk| == n && NulFree(a) && NulFree(chunk)
    requires buf[..m + n] == Rest(a) + chunk && AllFit(Lines(a))
    modifies buf
    ensures m' < BUFSIZE && buf[..m'] == Rest(a + chunk) && AllFit(Lines(a + chunk))
    ensures Select(re, Lines(a + chunk)) == Select(re, Lines(a)) + out
  {
    hide Lines, Rest, Newline, Select, Matches;
    ghost var s := Rest(a) + chunk;
    LinesAppend(a, chunk);
    RestNulFree(a);
    buf[m + n] := '\0';
    assert forall k :: 0 <= k < |s| ==> buf[k] == old(buf[..m + n])[k];
    var p;
    assert Holds(buf, 0, s);
    p, out := EatLines(re, buf, s);
    SelectAppend(re, Lines(a), Lines(s));
    m' := m + n - p;
    assert buf[p..p + m'] == s[p..];
    Memmove(buf, p, m');
  }

  lemma {:induction false} RestNulFree(s: string)
    requires NulFree(s)
    ensures NulFree(Rest(s))
    decreases |s|
  {
    var i := Newline(s);
    if i < |s| {
      RestNulFree(s[i + 1..]);
    }
  }
}
