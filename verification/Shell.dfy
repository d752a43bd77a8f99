/** The shell's parser: recursive descent over a command line, and the termination of its words in place. */
module Shell {
  import opened Folding
  import opened Strings

  // ---- Characters

  predicate White(c: char) { c == ' ' || c == '\t' || c == '\r' || c == '\n' || c == 11 as char }
  predicate Symbol(c: char) { c == '<' || c == '|' || c == '>' || c == '&' || c == ';' || c == '(' || c == ')' }
  predicate WordChar(c: char) { !White(c) && !Symbol(c) && c != NUL }

  function Skip(s: string, i: nat): (r: nat)
    requires i <= |s|
    ensures i <= r <= |s| && (r < |s| ==> !White(s[r]))
    decreases |s| - i
  {
    if i < |s| && White(s[i]) then Skip(s, i + 1) else i
  }

  function WordEnd(s: string, i: nat): (r: nat)
    requires i <= |s|
    ensures i <= r <= |s| && (r < |s| ==> White(s[r]) || Symbol(s[r]))
    ensures forall k | i <= k < r :: !White(s[k]) && !Symbol(s[k])
    decreases |s| - i
  {
    if i < |s| && !White(s[i]) && !Symbol(s[i]) then WordEnd(s, i + 1) else i
  }

  // ---- Tokens

  /** gettoken's result, the ends of the token, and where the next one starts. */
  datatype Token = Token(kind: char, q: nat, eq: nat, next: nat)

  // ---- Commands

  /** A word, as the two ends the parser keeps of it. */
  datatype Span = Span(q: nat, eq: nat)

  /** Word characters only, up to something that is not one. */
  ghost predicate GoodSpan(s: string, p: Span) {
    p.q < p.eq <= |s| && (forall k | p.q <= k < p.eq :: WordChar(s[k])) && (p.eq < |s| ==> !WordChar(s[p.eq]))
  }

  function GetToken(s: string, i: nat): (t: Token)
    requires i <= |s| && NulFree(s)
    ensures i <= t.q <= t.eq <= t.next <= |s| && t.q == Skip(s, i) && t.next == Skip(s, t.eq)
    ensures t.kind == NUL <==> t.q == |s|
    ensures t.kind != NUL ==> t.q < t.eq
    ensures t.kind == 'a' ==> GoodSpan(s, Span(t.q, t.eq))
  {
    var q := Skip(s, i);
    if q == |s| then Token(NUL, q, q, q)
    else if s[q] == '>' then
      if q + 1 < |s| && s[q + 1] == '>' then Token('+', q, q + 2, Skip(s, q + 2))
      else Token('>', q, q + 1, Skip(s, q + 1))
    else if Symbol(s[q]) then Token(s[q], q, q + 1, Skip(s, q + 1))
    else Token('a', q, WordEnd(s, q), Skip(s, WordEnd(s, q)))
  }

  predicate Peek(s: string, i: nat, toks: string)
    requires i <= |s|
  {
    Skip(s, i) < |s| && s[Skip(s, i)] in toks
  }

  const MAXARGS: nat := 10
  const O_RDONLY: nat := 0
  const O_WRONLY_CREATE: nat := 0x201

  datatype To = To(file: Span, mode: nat, fd: nat)

  datatype Cmd = Exec(args: seq<Span>) | Redir(cmd: Cmd, to: To) | Pipe(left: Cmd, right: Cmd)
               | List(left: Cmd, right: Cmd) | Back(cmd: Cmd)

  datatype Res<T> = Got(val: T, pos: nat) | Panic(msg: string)

  /** Redirections wrap a command, the first innermost. */
  function Wrap(c: Cmd, tos: seq<To>): Cmd
    decreases |tos|
  {
    if tos == [] then c else Wrap(Redir(c, tos[0]), tos[1..])
  }

  // ---- The grammar

  /** parseredirs. */
  function Redirs(s: string, i: nat): (r: Res<seq<To>>)
    requires i <= |s| && NulFree(s)
    ensures r.Got? ==> i <= r.pos <= |s| && forall k | 0 <= k < |r.val| :: GoodSpan(s, r.val[k].file)
    decreases |s| - i
  {
    if !Peek(s, i, "<>") then Got([], Skip(s, i))
    else
      var t := GetToken(s, i);
      var f := GetToken(s, t.next);
      if f.kind != 'a' then Panic("missing file for redirection")
      else
        var to := To(Span(f.q, f.eq), if t.kind == '<' then O_RDONLY else O_WRONLY_CREATE,
                     if t.kind == '<' then 0 else 1);
        var rest := Redirs(s, f.next);
        if rest.Panic? then rest else Got([to] + rest.val, rest.pos)
  }

  /** parseexec's loop, with n arguments so far: more arguments, and the redirections among them. */
  function Args(s: string, i: nat, n: nat): (r: Res<(seq<Span>, seq<To>)>)
    requires i <= |s| && NulFree(s)
    ensures r.Got? ==> i <= r.pos <= |s| && (forall k | 0 <= k < |r.val.0| :: GoodSpan(s, r.val.0[k]))
                       && forall k | 0 <= k < |r.val.1| :: GoodSpan(s, r.val.1[k].file)
    ensures r.Got? && n < MAXARGS ==> n + |r.val.0| < MAXARGS
    decreases |s| - i
  {
    if Peek(s, i, "|)&;") then Got(([], []), Skip(s, i))
    else
      var t := GetToken(s, i);
      if t.kind == NUL then Got(([], []), t.next)
      else if t.kind != 'a' then Panic("syntax")
      else if n + 1 >= MAXARGS then Panic("too many args")
      else
        var rs := Redirs(s, t.next);
        if rs.Panic? then Panic(rs.msg)
        else
          var rest := Args(s, rs.pos, n + 1);
          if rest.Panic? then rest else Got(([Span(t.q, t.eq)] + rest.val.0, rs.val + rest.val.1), rest.pos)
  }

  ghost predicate Good(s: string, c: Cmd) {
    match c
    case Exec(args) => forall k {:trigger args[k]} | 0 <= k < |args| :: GoodSpan(s, args[k])
    case Redir(d, to) => Good(s, d) && GoodSpan(s, to.file)
    case Pipe(l, r) => Good(s, l) && Good(s, r)
    case List(l, r) => Good(s, l) && Good(s, r)
    case Back(d) => Good(s, d)
  }

  lemma {:induction false} WrapGood(s: string, c: Cmd, tos: seq<To>)
    requires Good(s, c) && forall k | 0 <= k < |tos| :: GoodSpan(s, tos[k].file)
    ensures Good(s, Wrap(c, tos))
    decreases |tos|
  {
    if tos != [] {
      WrapGood(s, Redir(c, tos[0]), tos[1..]);
    }
  }

  function ParsePipe(s: string, i: nat): (r: Res<Cmd>)
    requires i <= |s| && NulFree(s)
    ensures r.Got? ==> i <= r.pos <= |s| && Good(s, r.val)
    decreases |s| - i, 3
  {
    var l := ParseExec(s, i);
    if l.Panic? then l
    else if !Peek(s, l.pos, "|") then Got(l.val, Skip(s, l.pos))
    else
      var r := ParsePipe(s, GetToken(s, l.pos).next);
      if r.Panic? then r else Got(Pipe(l.val, r.val), r.pos)
  }

  /** parseline's loop over &. */
  function Backs(s: string, c: Cmd, i: nat): (r: (Cmd, nat))
    requires i <= |s| && NulFree(s)
    ensures i <= r.1 <= |s| && (Good(s, c) ==> Good(s, r.0))
    decreases |s| - i
  {
    if Peek(s, i, "&") then Backs(s, Back(c), GetToken(s, i).next) else (c, Skip(s, i))
  }

  function ParseLine(s: string, i: nat): (r: Res<Cmd>)
    requires i <= |s| && NulFree(s)
    ensures r.Got? ==> i <= r.pos <= |s| && Good(s, r.val)
    decreases |s| - i, 4
  {
    var p := ParsePipe(s, i);
    if p.Panic? then p
    else
      var b := Backs(s, p.val, p.pos);
      if !Peek(s, b.1, ";") then Got(b.0, Skip(s, b.1))
      else
        var r := ParseLine(s, GetToken(s, b.1).next);
        if r.Panic? then r else Got(List(b.0, r.val), r.pos)
  }

  function ParseBlock(s: string, i: nat): (r: Res<Cmd>)
    requires i <= |s| && NulFree(s)
    ensures r.Got? ==> i <= r.pos <= |s| && Good(s, r.val)
    decreases |s| - i, 1
  {
    if !Peek(s, i, "(") then Panic("parseblock")
    else
      var r := ParseLine(s, GetToken(s, i).next);
      if r.Panic? then r
      else if !Peek(s, r.pos, ")") then Panic("syntax - missing )")
      else
        var rs := Redirs(s, GetToken(s, r.pos).next);
        if rs.Panic? then Panic(rs.msg)
        else
          WrapGood(s, r.val, rs.val);
          Got(Wrap(r.val, rs.val), rs.pos)
  }

  function ParseExec(s: string, i: nat): (r: Res<Cmd>)
    requires i <= |s| && NulFree(s)
    ensures r.Got? ==> i <= r.pos <= |s| && Good(s, r.val)
    decreases |s| - i, 2
  {
    if Peek(s, i, "(") then ParseBlock(s, i)
    else
      var rs := Redirs(s, i);
      if rs.Panic? then Panic(rs.msg)
      else
        var a := Args(s, rs.pos, 0);
        if a.Panic? then Panic(a.msg)
        else
          WrapGood(s, Exec(a.val.0), rs.val + a.val.1);
          Got(Wrap(Exec(a.val.0), rs.val + a.val.1), a.pos)
  }

  /** parsecmd, before nulterminate. */
  function ParseCmd(s: string): (r: Res<Cmd>)
    requires NulFree(s)
    ensures r.Got? ==> Good(s, r.val)
  {
    var r := ParseLine(s, 0);
    if r.Panic? then r
    else if Skip(s, r.pos) != |s| then Panic("syntax")
    else Got(r.val, |s|)
  }

  // ---- >> is >

  /** A >> at q that is not the end of a longer run of >. */
  ghost predicate DoubleAt(s: string, q: nat) {
    q + 1 < |s| && s[q] == '>' && s[q + 1] == '>' && (q > 0 ==> s[q - 1] != '>') && NulFree(s)
  }

  /** The line with that >> made a >, and all else in its place. */
  function Single(s: string, q: nat): (r: string)
    requires q + 1 < |s|
    ensures |r| == |s| && (NulFree(s) ==> NulFree(r))
  {
    s[q + 1 := ' ']
  }

  lemma {:induction false} SkipSame(s: string, q: nat, i: nat)
    requires DoubleAt(s, q) && i <= |s| && i != q + 1
    ensures Skip(Single(s, q), i) == Skip(s, i) != q + 1
    decreases |s| - i
  {
    if i < |s| && White(s[i]) {
      SkipSame(s, q, i + 1);
    }
  }

  lemma {:induction false} WordEndSame(s: string, q: nat, i: nat)
    requires DoubleAt(s, q) && i <= |s| && i != q + 1
    ensures WordEnd(Single(s, q), i) == WordEnd(s, i) != q + 1
    decreases |s| - i
  {
    if i < |s| && !White(s[i]) && !Symbol(s[i]) {
      WordEndSame(s, q, i + 1);
    }
  }

  /** At the >> itself. */
  lemma GreaterThere(s: string, q: nat)
    requires DoubleAt(s, q) && Skip(s, q) == q && Skip(Single(s, q), q) == q
    ensures var t, t' := GetToken(s, q), GetToken(Single(s, q), q);
            t'.next == t.next != q + 1 && t.kind == '+' && t'.kind == '>'
  {
    var r := Single(s, q);
    SkipSame(s, q, q + 2);
    assert r[q] == '>' && r[q + 1] == ' ' && Skip(r, q + 1) == Skip(r, q + 2);
  }

  /** The end of the > or >> at p. */
  function GreaterEnd(s: string, p: nat): nat { if p + 1 < |s| && s[p + 1] == '>' then p + 2 else p + 1 }

  lemma GreaterToken(s: string, p: nat, e: nat)
    requires p < |s| && s[p] == '>' && NulFree(s) && Skip(s, p) == p && e == GreaterEnd(s, p)
    ensures GetToken(s, p) == Token(if e == p + 2 then '+' else '>', p, e, Skip(s, e))
  {
  }

  /** At another > or >>. */
  lemma GreaterElsewhere(s: string, q: nat, p: nat)
    requires DoubleAt(s, q) && p < |s| && p != q && p != q + 1 && s[p] == '>' && Skip(s, p) == p
    requires Skip(Single(s, q), p) == p
    ensures GetToken(Single(s, q), p) == GetToken(s, p) && GetToken(s, p).next != q + 1
  {
    var r, e := Single(s, q), GreaterEnd(s, p);
    assert r[p] == s[p] && (p + 1 < |s| ==> r[p + 1] == s[p + 1]);
    GreaterToken(s, p, e);
    GreaterToken(r, p, e);
    SkipSame(s, q, e);
  }

  lemma GreaterSame(s: string, q: nat, p: nat)
    requires DoubleAt(s, q) && p < |s| && p != q + 1 && s[p] == '>' && Skip(s, p) == p && Skip(Single(s, q), p) == p
    ensures var t, t' := GetToken(s, p), GetToken(Single(s, q), p);
            t'.next == t.next != q + 1 && (t' == t || (t.kind == '+' && t'.kind == '>'))
  {
    if p == q {
      GreaterThere(s, q);
    } else {
      GreaterElsewhere(s, q, p);
    }
  }

  /** Any other token. */
  lemma OtherSame(s: string, q: nat, p: nat)
    requires DoubleAt(s, q) && p < |s| && p != q + 1 && s[p] != '>' && Skip(s, p) == p && Skip(Single(s, q), p) == p
    ensures GetToken(Single(s, q), p) == GetToken(s, p) && GetToken(s, p).next != q + 1
  {
    if Symbol(s[p]) {
      SkipSame(s, q, p + 1);
    } else {
      WordEndSame(s, q, p);
      SkipSame(s, q, WordEnd(s, p));
    }
  }

  lemma TokenSkips(s: string, i: nat)
    requires i <= |s| && NulFree(s)
    ensures Skip(s, Skip(s, i)) == Skip(s, i) && GetToken(s, i) == GetToken(s, Skip(s, i))
  {
  }

  /** Tokens are the same, but that one of them is another kind of >. */
  lemma TokenSame(s: string, q: nat, i: nat)
    requires DoubleAt(s, q) && i <= |s| && i != q + 1
    ensures var t, t' := GetToken(s, i), GetToken(Single(s, q), i);
            t'.next == t.next != q + 1 && (t' == t || (t.kind == '+' && t'.kind == '>'))
  {
    SkipSame(s, q, i);
    TokenSkips(s, i);
    TokenSkips(Single(s, q), i);
    var p := Skip(s, i);
    if p < |s| && s[p] == '>' {
      GreaterSame(s, q, p);
    } else if p < |s| {
      OtherSame(s, q, p);
    }
  }

  lemma PeekSame(s: string, q: nat, i: nat, toks: string)
    requires DoubleAt(s, q) && i <= |s| && i != q + 1
    ensures Peek(Single(s, q), i, toks) == Peek(s, i, toks) && Skip(Single(s, q), i) == Skip(s, i) != q + 1
  {
    SkipSame(s, q, i);
  }

  lemma {:induction false} RedirsSame(s: string, q: nat, i: nat)
    requires DoubleAt(s, q) && i <= |s| && i != q + 1
    ensures var r := Redirs(s, i); Redirs(Single(s, q), i) == r && (r.Got? ==> r.pos != q + 1)
    decreases |s| - i
  {
    PeekSame(s, q, i, "<>");
    if Peek(s, i, "<>") {
      TokenSame(s, q, i);
      var t := GetToken(s, i);
      TokenSame(s, q, t.next);
      var f := GetToken(s, t.next);
      if f.kind == 'a' {
        RedirsSame(s, q, f.next);
      }
    }
  }

  // Facts that stay closed until a step opens them with Open

  ghost predicate TokenIs(s: string, i: nat, t: Token) {
    && i <= |s| && NulFree(s)
    && (forall x {:trigger Open(x)} | Open(x) :: GetToken(s, i) == t)
  }

  ghost predicate RedirsGive(s: string, i: nat, r: Res<seq<To>>) {
    i <= |s| && NulFree(s) && (forall x {:trigger Open(x)} | Open(x) :: Redirs(s, i) == r)
  }

  ghost predicate ArgsGive(s: string, i: nat, n: nat, r: Res<(seq<Span>, seq<To>)>) {
    i <= |s| && NulFree(s) && (forall x {:trigger Open(x)} | Open(x) :: Args(s, i, n) == r)
  }

  lemma TokenPair(s: string, q: nat, i: nat) returns (t: Token, t': Token)
    requires DoubleAt(s, q) && i <= |s| && i != q + 1
    ensures TokenIs(s, i, t) && TokenIs(Single(s, q), i, t') && i <= t.next <= |s| && t'.next == t.next != q + 1
    ensures (t' == t || (t.kind == '+' && t'.kind == '>')) && (t.kind == 'a' ==> i < t.next)
  {
    TokenSame(s, q, i);
    t, t' := GetToken(s, i), GetToken(Single(s, q), i);
  }

  lemma RedirsPair(s: string, q: nat, i: nat) returns (r: Res<seq<To>>)
    requires DoubleAt(s, q) && i <= |s| && i != q + 1
    ensures RedirsGive(s, i, r) && RedirsGive(Single(s, q), i, r) && (r.Got? ==> i <= r.pos <= |s| && r.pos != q + 1)
  {
    RedirsSame(s, q, i);
    r := Redirs(s, i);
  }

  /** A word, its redirections and the rest. */
  function FirstArg(t: Token, rs: Res<seq<To>>, rest: Res<(seq<Span>, seq<To>)>): Res<(seq<Span>, seq<To>)> {
    if rs.Panic? then Panic(rs.msg)
    else if rest.Panic? then rest
    else Got(([Span(t.q, t.eq)] + rest.val.0, rs.val + rest.val.1), rest.pos)
  }

  lemma ArgsFirst(s: string, i: nat, n: nat, t: Token, rs: Res<seq<To>>, rest: Res<(seq<Span>, seq<To>)>,
                  a: Res<(seq<Span>, seq<To>)>)
    requires TokenIs(s, i, t) && t.kind == 'a' && t.next <= |s| && !Peek(s, i, "|)&;") && n + 1 < MAXARGS
    requires RedirsGive(s, t.next, rs) && (rs.Got? ==> ArgsGive(s, rs.pos, n + 1, rest)) && a == FirstArg(t, rs, rest)
    ensures ArgsGive(s, i, n, a)
  {
    assert Open(0);
  }

  /** No more arguments, or one that is none or one too many. */
  lemma ArgsLast(s: string, i: nat, n: nat, t: Token, a: Res<(seq<Span>, seq<To>)>)
    requires TokenIs(s, i, t) && (Peek(s, i, "|)&;") || t.kind != 'a' || n + 1 >= MAXARGS)
    requires a == if Peek(s, i, "|)&;") then Got(([], []), Skip(s, i))
                  else if t.kind == NUL then Got(([], []), t.next)
                  else if t.kind != 'a' then Panic("syntax") else Panic("too many args")
    ensures ArgsGive(s, i, n, a)
  {
    assert Open(0);
  }

  lemma ArgsLastSame(s: string, q: nat, i: nat, n: nat, t: Token, t': Token) returns (a: Res<(seq<Span>, seq<To>)>)
    requires DoubleAt(s, q) && i <= |s| && i != q + 1 && TokenIs(s, i, t) && TokenIs(Single(s, q), i, t')
    requires t'.next == t.next != q + 1 && (t' == t || (t.kind == '+' && t'.kind == '>'))
    requires Peek(s, i, "|)&;") || t.kind != 'a' || n + 1 >= MAXARGS
    ensures ArgsGive(s, i, n, a) && ArgsGive(Single(s, q), i, n, a) && (a.Got? ==> a.pos != q + 1)
  {
    PeekSame(s, q, i, "|)&;");
    a := if Peek(s, i, "|)&;") then Got(([], []), Skip(s, i)) else if t.kind == NUL then Got(([], []), t.next)
         else if t.kind != 'a' then Panic("syntax") else Panic("too many args");
    ArgsLast(s, i, n, t, a);
    ArgsLast(Single(s, q), i, n, t', a);
  }

  lemma ArgsFirstSame(s: string, q: nat, i: nat, n: nat, t: Token, rs: Res<seq<To>>, rest: Res<(seq<Span>, seq<To>)>)
    returns (a: Res<(seq<Span>, seq<To>)>)
    requires DoubleAt(s, q) && i <= |s| && i != q + 1 && TokenIs(s, i, t) && TokenIs(Single(s, q), i, t)
    requires t.kind == 'a' && t.next <= |s| && !Peek(s, i, "|)&;") && n + 1 < MAXARGS
    requires RedirsGive(s, t.next, rs) && RedirsGive(Single(s, q), t.next, rs)
    requires rs.Got? ==> ArgsGive(s, rs.pos, n + 1, rest) && ArgsGive(Single(s, q), rs.pos, n + 1, rest)
    requires rs.Got? && rest.Got? ==> rest.pos != q + 1
    ensures ArgsGive(s, i, n, a) && ArgsGive(Single(s, q), i, n, a) && (a.Got? ==> a.pos != q + 1)
  {
    PeekSame(s, q, i, "|)&;");
    a := FirstArg(t, rs, rest);
    ArgsFirst(s, i, n, t, rs, rest, a);
    ArgsFirst(Single(s, q), i, n, t, rs, rest, a);
  }

  lemma {:induction false} ArgsSame(s: string, q: nat, i: nat, n: nat) returns (a: Res<(seq<Span>, seq<To>)>)
    requires DoubleAt(s, q) && i <= |s| && i != q + 1
    ensures ArgsGive(s, i, n, a) && ArgsGive(Single(s, q), i, n, a) && (a.Got? ==> a.pos != q + 1)
    decreases |s| - i
  {
    var t, t' := TokenPair(s, q, i);
    if !Peek(s, i, "|)&;") && t.kind == 'a' && n + 1 < MAXARGS {
      var rs := RedirsPair(s, q, t.next);
      var rest: Res<(seq<Span>, seq<To>)> := Panic("");
      if rs.Got? {
        rest := ArgsSame(s, q, rs.pos, n + 1);
      }
      a := ArgsFirstSame(s, q, i, n, t, rs, rest);
    } else {
      a := ArgsLastSame(s, q, i, n, t, t');
    }
  }

  lemma {:induction false} PipeSame(s: string, q: nat, i: nat)
    requires DoubleAt(s, q) && i <= |s| && i != q + 1
    ensures var r := ParsePipe(s, i); ParsePipe(Single(s, q), i) == r && (r.Got? ==> r.pos != q + 1)
    decreases |s| - i, 3
  {
    ExecSame(s, q, i);
    var l := ParseExec(s, i);
    if l.Got? {
      PeekSame(s, q, l.pos, "|");
      if Peek(s, l.pos, "|") {
        TokenSame(s, q, l.pos);
        PipeSame(s, q, GetToken(s, l.pos).next);
      }
    }
  }

  lemma {:induction false} BacksSame(s: string, q: nat, c: Cmd, i: nat)
    requires DoubleAt(s, q) && i <= |s| && i != q + 1
    ensures Backs(Single(s, q), c, i) == Backs(s, c, i) && Backs(s, c, i).1 != q + 1
    decreases |s| - i
  {
    PeekSame(s, q, i, "&");
    if Peek(s, i, "&") {
      TokenSame(s, q, i);
      BacksSame(s, q, Back(c), GetToken(s, i).next);
    }
  }

  lemma {:induction false} LineSame(s: string, q: nat, i: nat)
    requires DoubleAt(s, q) && i <= |s| && i != q + 1
    ensures var r := ParseLine(s, i); ParseLine(Single(s, q), i) == r && (r.Got? ==> r.pos != q + 1)
    decreases |s| - i, 4
  {
    PipeSame(s, q, i);
    var p := ParsePipe(s, i);
    if p.Got? {
      BacksSame(s, q, p.val, p.pos);
      var b := Backs(s, p.val, p.pos);
      PeekSame(s, q, b.1, ";");
      if Peek(s, b.1, ";") {
        TokenSame(s, q, b.1);
        LineSame(s, q, GetToken(s, b.1).next);
      }
    }
  }

  lemma {:induction false} BlockSame(s: string, q: nat, i: nat)
    requires DoubleAt(s, q) && i <= |s| && i != q + 1
    ensures var r := ParseBlock(s, i); ParseBlock(Single(s, q), i) == r && (r.Got? ==> r.pos != q + 1)
    decreases |s| - i, 1
  {
    PeekSame(s, q, i, "(");
    if Peek(s, i, "(") {
      TokenSame(s, q, i);
      LineSame(s, q, GetToken(s, i).next);
      var r := ParseLine(s, GetToken(s, i).next);
      if r.Got? {
        PeekSame(s, q, r.pos, ")");
        TokenSame(s, q, r.pos);
        RedirsSame(s, q, GetToken(s, r.pos).next);
      }
    }
  }

  lemma {:induction false} ExecSame(s: string, q: nat, i: nat)
    requires DoubleAt(s, q) && i <= |s| && i != q + 1
    ensures var r := ParseExec(s, i); ParseExec(Single(s, q), i) == r && (r.Got? ==> r.pos != q + 1)
    decreases |s| - i, 2
  {
    PeekSame(s, q, i, "(");
    if Peek(s, i, "(") {
      BlockSame(s, q, i);
    } else {
      RedirsSame(s, q, i);
      var rs := Redirs(s, i);
      if rs.Got? {
        var a := ArgsSame(s, q, rs.pos, 0);
        assert Open(0);
      }
    }
  }

  /** A line with >> is parsed, or refused, exactly as the line with > in its place: nothing in the tree
      says that a file is to be appended to. */
  lemma AppendIsPlain(s: string, q: nat)
    requires DoubleAt(s, q)
    ensures ParseCmd(Single(s, q)) == ParseCmd(s)
  {
    LineSame(s, q, 0);
    var r := ParseLine(s, 0);
    if r.Got? {
      SkipSame(s, q, r.pos);
    }
  }

  // ---- Termination of words in place

  /** A word as it stands in the line. */
  function Text(s: string, p: Span): string { if p.q <= p.eq <= |s| then s[p.q..p.eq] else "" }

  /** Where nulterminate writes. */
  ghost function Ends(c: Cmd): set<nat> {
    match c
    case Exec(args) => set k | 0 <= k < |args| :: args[k].eq
    case Redir(d, to) => Ends(d) + {to.file.eq}
    case Pipe(l, r) => Ends(l) + Ends(r)
    case List(l, r) => Ends(l) + Ends(r)
    case Back(d) => Ends(d)
  }

  /** The words of a command. */
  ghost function Spans(c: Cmd): set<Span> {
    match c
    case Exec(args) => set k | 0 <= k < |args| :: args[k]
    case Redir(d, to) => Spans(d) + {to.file}
    case Pipe(l, r) => Spans(l) + Spans(r)
    case List(l, r) => Spans(l) + Spans(r)
    case Back(d) => Spans(d)
  }

  lemma {:induction false} SpansGood(s: string, c: Cmd)
    requires Good(s, c)
    ensures forall p | p in Spans(c) :: GoodSpan(s, p) && p.eq in Ends(c)
    ensures forall e | e in Ends(c) :: e <= |s| && (e < |s| ==> !WordChar(s[e]))
  {
    match c
    case Exec(args) =>
    case Redir(d, to) => SpansGood(s, d);
    case Pipe(l, r) => SpansGood(s, l); SpansGood(s, r);
    case List(l, r) => SpansGood(s, l); SpansGood(s, r);
    case Back(d) => SpansGood(s, d);
  }

  /** The buffer after nulterminate. */
  ghost predicate Terminated(b: seq<char>, b': seq<char>, ends: set<nat>) {
    |b'| == |b| && forall k: nat {:trigger b'[k]} | k < |b| :: b'[k] == if k in ends then NUL else b[k]
  }

  /** nulterminate, on the buffer that holds the line and its NUL. */
  method NulTerminate(buf: array<char>, c: Cmd)
    requires forall e | e in Ends(c) :: e < buf.Length
    modifies buf
    ensures Terminated(old(buf[..]), buf[..], Ends(c))
    decreases c
  {
    match c
    case Exec(args) =>
      var i := 0;
      while i < |args|
        invariant 0 <= i <= |args|
        invariant forall k: nat {:trigger buf[k]} | k < buf.Length ::
                    buf[k] == if exists j :: 0 <= j < i && args[j].eq == k then NUL else old(buf[k])
      {
        assert args[i].eq in Ends(c);
        buf[args[i].eq] := NUL;
        i := i + 1;
      }
    case Redir(d, to) =>
      assert Ends(c) == Ends(d) + {to.file.eq};
      NulTerminate(buf, d);
      buf[to.file.eq] := NUL;
    case Pipe(l, r) =>
      assert Ends(c) == Ends(l) + Ends(r);
      NulTerminate(buf, l);
      NulTerminate(buf, r);
    case List(l, r) =>
      assert Ends(c) == Ends(l) + Ends(r);
      NulTerminate(buf, l);
      NulTerminate(buf, r);
    case Back(d) =>
      assert Ends(c) == Ends(d);
      NulTerminate(buf, d);
  }

  /** Reading from q up to the first NUL of b gives w. */
  ghost predicate CString(b: seq<char>, q: nat, w: string) {
    q + |w| < |b| && b[q..q + |w|] == w && b[q + |w|] == NUL && NulFree(w)
  }

  /** After nulterminate every word, read as a C string, is its token: no word's end falls inside another word. */
  lemma WordsTerminated(s: string, c: Cmd, b': seq<char>, p: Span)
    requires NulFree(s) && Good(s, c) && Terminated(s + [NUL], b', Ends(c)) && p in Spans(c)
    ensures CString(b', p.q, Text(s, p))
  {
    SpansGood(s, c);
    var w := Text(s, p);
    forall k | p.q <= k < p.eq
      ensures b'[k] == s[k]
    {
      assert WordChar(s[k]);
    }
    assert b'[p.q..p.eq] == w;
  }

  // ---- The parser as it runs, with its cursor

  lemma SkipTwice(s: string, i: nat)
    requires i <= |s|
    ensures Skip(s, Skip(s, i)) == Skip(s, i)
  {
  }

  lemma SkipFirst(s: string, i: nat)
    requires i <= |s| && NulFree(s)
    ensures GetToken(s, Skip(s, i)) == GetToken(s, i)
    ensures Redirs(s, Skip(s, i)) == Redirs(s, i)
  {
    SkipTwice(s, i);
  }

  datatype Arg = NoArg | BadArg(msg: string) | OneArg(arg: Span, tos: seq<To>)

  lemma SkipBacks(s: string, c: Cmd, i: nat)
    requires i <= |s| && NulFree(s)
    ensures Backs(s, c, Skip(s, i)) == Backs(s, c, i)
  {
    SkipTwice(s, i);
    SkipFirst(s, i);
  }

  lemma SkipBlock(s: string, i: nat)
    requires i <= |s| && NulFree(s)
    ensures ParseBlock(s, Skip(s, i)) == ParseBlock(s, i)
  {
    SkipTwice(s, i);
    SkipFirst(s, i);
  }

  function Prepend(tos: seq<To>, r: Res<seq<To>>): Res<seq<To>> {
    if r.Panic? then r else Got(tos + r.val, r.pos)
  }

  lemma PrependNone(r: Res<seq<To>>)
    ensures Prepend([], r) == r
  {
    if r.Got? {
      assert [] + r.val == r.val;
    }
  }

  function PrependArgs(args: seq<Span>, tos: seq<To>, r: Res<(seq<Span>, seq<To>)>): Res<(seq<Span>, seq<To>)> {
    if r.Panic? then r else Got((args + r.val.0, tos + r.val.1), r.pos)
  }

  /** The arguments of `whole` are those found, and then those from i on. */
  ghost predicate Pending(s: string, i: nat, args: seq<Span>, tos: seq<To>, whole: Res<(seq<Span>, seq<To>)>) {
    && i <= |s| && NulFree(s)
    && whole == PrependArgs(args, tos, Args(s, i, |args|))
  }

  lemma PrependedArgs(args: seq<Span>, tos: seq<To>, a: Span, ts: seq<To>, r: Res<(seq<Span>, seq<To>)>)
    ensures PrependArgs(args, tos, PrependArgs([a], ts, r)) == PrependArgs(args + [a], tos + ts, r)
  {
    if r.Got? {
      assert args + ([a] + r.val.0) == (args + [a]) + r.val.0 && tos + (ts + r.val.1) == (tos + ts) + r.val.1;
    }
  }

  lemma PendingDone(s: string, i: nat, args: seq<Span>, tos: seq<To>, whole: Res<(seq<Span>, seq<To>)>,
                    rest: Res<(seq<Span>, seq<To>)>, r: Res<(seq<Span>, seq<To>)>)
    requires Pending(s, i, args, tos, whole) && Args(s, i, |args|) == rest
    requires rest.Got? ==> rest.val == ([], []) && r == Got((args, tos), rest.pos)
    requires rest.Panic? ==> r == rest
    ensures r == whole
  {
    assert args + [] == args && tos + [] == tos;
  }

  lemma PendingNext(s: string, i: nat, j: nat, args: seq<Span>, tos: seq<To>, whole: Res<(seq<Span>, seq<To>)>,
                    a: Span, ts: seq<To>,
                    args': seq<Span>, tos': seq<To>)
    requires Pending(s, i, args, tos, whole) && j <= |s| && NulFree(s) && args' == args + [a] && tos' == tos + ts
    requires i <= |s| && Args(s, i, |args|) == PrependArgs([a], ts, Args(s, j, |args| + 1))
    ensures Pending(s, j, args', tos', whole)
  {
    PrependedArgs(args, tos, a, ts, Args(s, j, |args| + 1));
  }

  lemma PrependNoArgs(r: Res<(seq<Span>, seq<To>)>)
    ensures PrependArgs([], [], r) == r
  {
    if r.Got? {
      assert [] + r.val.0 == r.val.0 && [] + r.val.1 == r.val.1;
    }
  }

  lemma Prepended(tos: seq<To>, to: To, r: Res<seq<To>>)
    ensures Prepend(tos, Prepend([to], r)) == Prepend(tos + [to], r)
  {
    if r.Got? {
      assert tos + ([to] + r.val) == (tos + [to]) + r.val;
    }
  }

  class Parser {
    const s: string
    var ps: nat

    constructor (line: string)
      ensures s == line && ps == 0
    {
      s, ps := line, 0;
    }

    method SkipBlanks(i0: nat) returns (i: nat)
      requires i0 <= |s|
      ensures i == Skip(s, i0)
    {
      i := i0;
      while i < |s| && White(s[i])
        invariant i0 <= i <= |s| && Skip(s, i) == Skip(s, i0)
      {
        i := i + 1;
      }
    }

    /** gettoken. */
    method Next() returns (t: Token)
      requires ps <= |s| && NulFree(s)
      modifies this
      ensures t == GetToken(s, old(ps)) && ps == t.next
    {
      var i := SkipBlanks(ps);
      var q, kind := i, if i < |s| then s[i] else NUL;
      if i == |s| {
      } else if kind == '>' {
        i := i + 1;
        if i < |s| && s[i] == '>' {
          kind := '+';
          i := i + 1;
        }
      } else if Symbol(kind) {
        i := i + 1;
      } else {
        kind := 'a';
        while i < |s| && !White(s[i]) && !Symbol(s[i])
          invariant q <= i <= |s| && WordEnd(s, i) == WordEnd(s, q)
        {
          i := i + 1;
        }
      }
      var eq := i;
      ps := SkipBlanks(i);
      t := Token(kind, q, eq, ps);
    }

    /** peek. */
    method Sees(toks: string) returns (b: bool)
      requires ps <= |s|
      modifies this
      ensures b == Peek(s, old(ps), toks) && ps == Skip(s, old(ps))
    {
      ps := SkipBlanks(ps);
      b := ps < |s| && s[ps] in toks;
    }

    /** parseredirs; what it finds is wrapped around the command it was given. */
    method WithRedirs() returns (r: Res<seq<To>>)
      requires ps <= |s| && NulFree(s)
      modifies this
      ensures r == Redirs(s, old(ps)) && (r.Got? ==> ps == r.pos) && ps <= |s|
    {
      var tos: seq<To> := [];
      ghost var i0 := ps;
      var more := Sees("<>");
      SkipFirst(s, i0);
      SkipTwice(s, i0);
      PrependNone(Redirs(s, i0));
      while more
        invariant ps <= |s| && Skip(s, ps) == ps && more == Peek(s, ps, "<>")
        invariant Redirs(s, i0) == Prepend(tos, Redirs(s, ps))
        decreases |s| - ps, more
      {
        var t := Next();
        var f := Next();
        if f.kind != 'a' {
          return Panic("missing file for redirection");
        }
        var to := To(Span(f.q, f.eq), if t.kind == '<' then O_RDONLY else O_WRONLY_CREATE,
                     if t.kind == '<' then 0 else 1);
        Prepended(tos, to, Redirs(s, ps));
        ghost var i1 := ps;
        tos := tos + [to];
        more := Sees("<>");
        SkipFirst(s, i1);
        SkipTwice(s, i1);
      }
      assert tos + [] == tos;
      r := Got(tos, ps);
    }

    /** One round of it. */
    method Argument(n: nat) returns (a: Arg)
      requires ps <= |s| && NulFree(s) && n < MAXARGS
      modifies this
      ensures ps <= |s|
      ensures a.NoArg? ==> Args(s, old(ps), n) == Got(([], []), ps)
      ensures a.BadArg? ==> Args(s, old(ps), n) == Panic(a.msg)
      ensures a.OneArg? ==>
                n + 1 < MAXARGS && ps > old(ps)
                  && Args(s, old(ps), n) == PrependArgs([a.arg], a.tos, Args(s, ps, n + 1))
    {
      ghost var i0 := ps;
      var stop := Sees("|)&;");
      SkipFirst(s, i0);
      if stop {
        return NoArg;
      }
      var t := Next();
      if t.kind == NUL {
        return NoArg;
      }
      if t.kind != 'a' {
        return BadArg("syntax");
      }
      if n + 1 >= MAXARGS {
        return BadArg("too many args");
      }
      var rs := WithRedirs();
      if rs.Panic? {
        return BadArg(rs.msg);
      }
      a := OneArg(Span(t.q, t.eq), rs.val);
    }

    /** parseexec's loop over arguments. */
    method Arguments() returns (r: Res<(seq<Span>, seq<To>)>)
      requires ps <= |s| && NulFree(s)
      modifies this
      ensures r == Args(s, old(ps), 0) && (r.Got? ==> ps == r.pos)
    {
      var args: seq<Span>, tos: seq<To> := [], [];
      ghost var whole := Args(s, ps, 0);
      PrependNoArgs(whole);
      while true
        invariant ps <= |s| && |args| < MAXARGS && Pending(s, ps, args, tos, whole)
        decreases |s| - ps
      {
        ghost var i := ps;
        var a := Argument(|args|);
        if !a.OneArg? {
          r := if a.NoArg? then Got((args, tos), ps) else Panic(a.msg);
          PendingDone(s, i, args, tos, whole, if a.NoArg? then Got(([], []), ps) else Panic(a.msg), r);
          return;
        }
        PendingNext(s, i, ps, args, tos, whole, a.arg, a.tos, args + [a.arg], tos + a.tos);
        args, tos := args + [a.arg], tos + a.tos;
      }
    }

    /** parsepipe. */
    method PipeCmd() returns (r: Res<Cmd>)
      requires ps <= |s| && NulFree(s)
      modifies this
      ensures r == ParsePipe(s, old(ps)) && (r.Got? ==> ps == r.pos)
      decreases |s| - ps, 3
    {
      r := ExecCmd();
      if r.Panic? {
        return;
      }
      ghost var i1 := ps;
      var b := Sees("|");
      SkipFirst(s, i1);
      if !b {
        return Got(r.val, ps);
      }
      var t := Next();
      var right := PipeCmd();
      if right.Panic? {
        return right;
      }
      r := Got(Pipe(r.val, right.val), ps);
    }

    /** parseline's loop over &. */
    method Background(c0: Cmd) returns (c: Cmd)
      requires ps <= |s| && NulFree(s)
      modifies this
      ensures (c, ps) == Backs(s, c0, old(ps))
    {
      c := c0;
      ghost var i0 := ps;
      var more := Sees("&");
      SkipBacks(s, c, i0);
      SkipTwice(s, i0);
      while more
        invariant ps <= |s| && Skip(s, ps) == ps && more == Peek(s, ps, "&") && Backs(s, c, ps) == Backs(s, c0, i0)
        decreases |s| - ps, more
      {
        var t := Next();
        c := Back(c);
        ghost var i1 := ps;
        more := Sees("&");
        SkipBacks(s, c, i1);
        SkipTwice(s, i1);
      }
    }

    /** parseline. */
    method Line() returns (r: Res<Cmd>)
      requires ps <= |s| && NulFree(s)
      modifies this
      ensures r == ParseLine(s, old(ps)) && (r.Got? ==> ps == r.pos)
      decreases |s| - ps, 4
    {
      r := PipeCmd();
      if r.Panic? {
        return;
      }
      var c := Background(r.val);
      ghost var i1 := ps;
      var b := Sees(";");
      SkipFirst(s, i1);
      if !b {
        return Got(c, ps);
      }
      var t := Next();
      var rest := Line();
      if rest.Panic? {
        return rest;
      }
      r := Got(List(c, rest.val), ps);
    }

    /** parseblock. */
    method Block() returns (r: Res<Cmd>)
      requires ps <= |s| && NulFree(s)
      modifies this
      ensures r == ParseBlock(s, old(ps)) && (r.Got? ==> ps == r.pos)
      decreases |s| - ps, 1
    {
      ghost var i0 := ps;
      var b := Sees("(");
      SkipFirst(s, i0);
      if !b {
        return Panic("parseblock");
      }
      var t := Next();
      r := Line();
      if r.Panic? {
        return;
      }
      ghost var i1 := ps;
      b := Sees(")");
      SkipFirst(s, i1);
      if !b {
        return Panic("syntax - missing )");
      }
      t := Next();
      var rs := WithRedirs();
      if rs.Panic? {
        return Panic(rs.msg);
      }
      r := Got(Wrap(r.val, rs.val), ps);
    }

    /** parseexec. */
    method ExecCmd() returns (r: Res<Cmd>)
      requires ps <= |s| && NulFree(s)
      modifies this
      ensures r == ParseExec(s, old(ps)) && (r.Got? ==> ps == r.pos)
      decreases |s| - ps, 2
    {
      ghost var i0 := ps;
      var block := Sees("(");
      SkipFirst(s, i0);
      if block {
        SkipBlock(s, i0);
        r := Block();
        return;
      }
      var rs := WithRedirs();
      if rs.Panic? {
        return Panic(rs.msg);
      }
      var a := Arguments();
      if a.Panic? {
        return Panic(a.msg);
      }
      r := Got(Wrap(Exec(a.val.0), rs.val + a.val.1), ps);
    }
  }

  /** parsecmd on a buffer that holds a line of n characters and its NUL. */
  method ParseBuffer(buf: array<char>, n: nat) returns (r: Res<Cmd>)
    requires n < buf.Length && NulFree(buf[..n]) && buf[n] == NUL
    modifies buf
    ensures NulFree(old(buf[..n])) && (r.Panic? <==> ParseCmd(old(buf[..n])).Panic?)
    ensures r.Panic? ==> buf[..] == old(buf[..])
    ensures r.Got? ==> r.val == ParseCmd(old(buf[..n])).val
    ensures r.Got? ==> forall p | p in Spans(r.val) :: CString(buf[..n + 1], p.q, Text(old(buf[..n]), p))
  {
    var line := buf[..n];
    var parser := new Parser(line);
    r := parser.Line();
    if r.Panic? {
      return;
    }
    var b := parser.Sees("");
    if parser.ps != |line| {
      return Panic("syntax");
    }
    SpansGood(line, r.val);
    NulTerminate(buf, r.val);
    forall p | p in Spans(r.val)
      ensures CString(buf[..n + 1], p.q, Text(line, p))
    {
      assert old(buf[..])[..n + 1] == line + [NUL];
      WordsTerminated(line, r.val, buf[..n + 1], p);
    }
  }
}
