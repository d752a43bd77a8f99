/** The tokens of a command line, and how they are spelled. */
module ShellTokens {
  import opened Shell
  import opened Strings

  // ---- The tokens of a line

  /** A word, or a sign: + is >>, every other sign is its own character. */
  datatype Tok = Name(text: string) | Sign(c: char)

  ghost function TokOf(s: string, t: Token): Tok
    requires t.q <= t.eq <= |s|
  {
    if t.kind == 'a' then Name(s[t.q..t.eq]) else Sign(t.kind)
  }

  /** Tokens in a row. */
  datatype Tape = Blank | Tape(first: Tok, rest: Tape)

  ghost function Toks(s: string, i: nat): Tape
    requires i <= |s| && NulFree(s)
    decreases |s| - i
  {
    var t := GetToken(s, i);
    if t.kind == NUL then Blank else Tape(TokOf(s, t), Toks(s, t.next))
  }

  predicate Sees(ts: Tape, c: char) { ts.Tape? && ts.first == Sign(c) }

  /** What may follow a line, a pipeline, a command. */
  predicate EndsLine(ts: Tape) { ts.Blank? || Sees(ts, ')') }
  predicate EndsPipeline(ts: Tape) { EndsLine(ts) || Sees(ts, '&') || Sees(ts, ';') }
  predicate EndsStage(ts: Tape) { EndsPipeline(ts) || Sees(ts, '|') }

  predicate FileSign(c: char) { c == '<' || c == '>' || c == '+' }

  predicate StartsFile(ts: Tape) { ts.Tape? && ts.first.Sign? && FileSign(ts.first.c) }

  predicate IsWord(w: string) { |w| > 0 && forall k | 0 <= k < |w| :: WordChar(w[k]) }

  // ---- Peek and gettoken on tokens

  lemma SkippedToks(s: string, i: nat)
    requires i <= |s| && NulFree(s)
    ensures Toks(s, Skip(s, i)) == Toks(s, i)
  {
    SkipFirst(s, i);
  }

  /** The kind of the first token is that of the character after the blanks. */
  lemma FirstChar(s: string, i: nat, q: nat)
    requires i <= |s| && NulFree(s) && q == Skip(s, i)
    ensures q == |s| <==> Toks(s, i).Blank?
    ensures q < |s| ==> var k := Toks(s, i).first;
                        if !Symbol(s[q]) then k.Name? else if s[q] == '>' then k == Sign('>') || k == Sign('+')
                        else k == Sign(s[q])
  {
  }

  lemma Peeks(s: string, i: nat, c: char)
    requires i <= |s| && NulFree(s) && Symbol(c) && c != '>'
    ensures Peek(s, i, [c]) <==> Sees(Toks(s, i), c)
    ensures Toks(s, Skip(s, i)) == Toks(s, i)
  {
    SkippedToks(s, i);
    FirstChar(s, i, Skip(s, i));
  }

  lemma EndSigns(c: char)
    ensures c in "|)&;" <==> c == '|' || c == ')' || c == '&' || c == ';'
  {
    var cs := "|)&;";
    assert cs[0] == '|' && cs[1] == ')' && cs[2] == '&' && cs[3] == ';';
  }

  lemma PeeksEnd(s: string, i: nat)
    requires i <= |s| && NulFree(s)
    ensures Peek(s, i, "|)&;") <==> Toks(s, i).Tape? && EndsStage(Toks(s, i))
    ensures Toks(s, Skip(s, i)) == Toks(s, i)
  {
    SkippedToks(s, i);
    var q := Skip(s, i);
    FirstChar(s, i, q);
    if q < |s| {
      EndSigns(s[q]);
    }
  }

  lemma PeeksFile(s: string, i: nat)
    requires i <= |s| && NulFree(s)
    ensures Peek(s, i, "<>") <==> StartsFile(Toks(s, i))
    ensures Toks(s, Skip(s, i)) == Toks(s, i)
  {
    SkippedToks(s, i);
    FirstChar(s, i, Skip(s, i));
  }

  /** The first token. */
  lemma Gets(s: string, i: nat, t: Token)
    requires i <= |s| && NulFree(s) && t == GetToken(s, i)
    ensures t.kind == NUL ==> Toks(s, i).Blank? && Toks(s, t.next).Blank?
    ensures t.kind != NUL ==> i < t.next && Toks(s, i).Tape? && Toks(s, i).rest == Toks(s, t.next)
    ensures t.kind == 'a' ==> IsWord(Text(s, Span(t.q, t.eq))) && Toks(s, i).first == Name(Text(s, Span(t.q, t.eq)))
    ensures t.kind != 'a' && t.kind != NUL ==> Toks(s, i).first == Sign(t.kind)
  {
  }

  lemma NoToks(s: string, i: nat)
    requires i <= |s| && NulFree(s)
    ensures Toks(s, i) == Blank <==> Skip(s, i) == |s|
  {
  }

  // ---- How tokens are spelled

  predicate TokOk(k: Tok) { if k.Name? then IsWord(k.text) else Symbol(k.c) || k.c == '+' }

  function Spelling(k: Tok): (u: string)
    ensures TokOk(k) ==> |u| > 0
  {
    match k
    case Name(w) => w
    case Sign(c) => if c == '+' then ">>" else [c]
  }

  predicate Gap(g: string) { forall k | 0 <= k < |g| :: White(g[k]) }

  /** Tokens with the blanks that follow each of them. */
  datatype Script = Void | Script(k: Tok, gap: string, rest: Script)

  /** Two words need a blank between them, and so does a > before another. */
  predicate Runs(k: Tok, sc: Script) {
    sc.Script? && if k.Name? then sc.k.Name? else k.c == '>' && sc.k.Sign? && (sc.k.c == '>' || sc.k.c == '+')
  }

  predicate ScriptOk(sc: Script) {
    sc.Script? ==> TokOk(sc.k) && Gap(sc.gap) && (sc.gap == "" ==> !Runs(sc.k, sc.rest)) && ScriptOk(sc.rest)
  }

  function Spelled(sc: Script): string {
    if sc.Void? then "" else Spelling(sc.k) + (sc.gap + Spelled(sc.rest))
  }

  function TapeOf(sc: Script): Tape {
    if sc.Void? then Blank else Tape(sc.k, TapeOf(sc.rest))
  }

  /** From i on, s is u and then v. */
  ghost predicate Splits(s: string, i: nat, u: string, j: nat, v: string) {
    i <= j <= |s| && j == i + |u| && s[i..j] == u && s[j..] == v
  }

  lemma Split(s: string, i: nat, u: string, v: string)
    requires i <= |s| && s[i..] == u + v
    ensures Splits(s, i, u, i + |u|, v)
  {
    assert s[i..][..|u|] == u && s[i..][|u|..] == v;
  }

  lemma {:induction false} SkipsGap(s: string, i: nat, j: nat)
    requires i <= j <= |s| && Gap(s[i..j]) && (j < |s| ==> !White(s[j]))
    ensures Skip(s, i) == j
    decreases j - i
  {
    if i < j {
      assert White(s[i..j][0]);
      assert s[i + 1..j] == s[i..j][1..];
      SkipsGap(s, i + 1, j);
    }
  }

  lemma {:induction false} EndsWord(s: string, i: nat, j: nat)
    requires i <= j <= |s| && (forall k | i <= k < j :: WordChar(s[k])) && (j < |s| ==> White(s[j]) || Symbol(s[j]))
    ensures WordEnd(s, i) == j
    decreases j - i
  {
    if i < j {
      EndsWord(s, i + 1, j);
    }
  }

  /** What stands after a token, at its end. */
  lemma AfterTok(k: Tok, gap: string, rest: Script, v: string)
    requires Gap(gap) && ScriptOk(rest) && (gap == "" ==> !Runs(k, rest)) && v == gap + Spelled(rest) && v != ""
    ensures k.Name? ==> White(v[0]) || Symbol(v[0])
    ensures k == Sign('>') ==> v[0] != '>'
  {
    if gap == "" {
      assert v == Spelled(rest) && v[0] == Spelling(rest.k)[0];
    } else {
      assert v[0] == gap[0];
    }
  }

  lemma ToksFrom(s: string, i: nat, t: Token)
    requires i <= |s| && NulFree(s) && t == GetToken(s, i) && t.kind != NUL
    ensures Toks(s, i) == Tape(TokOf(s, t), Toks(s, t.eq))
  {
    SkippedToks(s, t.eq);
  }

  /** gettoken finds the token k from q to e. */
  lemma TokFound(s: string, i: nat, q: nat, k: Tok, e: nat)
    requires i <= q < e <= |s| && NulFree(s) && Skip(s, i) == q && TokOk(k) && s[q..e] == Spelling(k)
    requires e < |s| ==> (k.Name? ==> White(s[e]) || Symbol(s[e])) && (k == Sign('>') ==> s[e] != '>')
    ensures GetToken(s, i) == Token(if k.Name? then 'a' else k.c, q, e, Skip(s, e))
  {
    var u := Spelling(k);
    assert s[q] == u[0];
    match k
    case Name(w) =>
      assert forall x | q <= x < e :: s[x] == w[x - q];
      EndsWord(s, q, e);
    case Sign(c) =>
      if c == '+' {
        assert s[q + 1] == u[1];
      }
  }

  lemma FirstTok(s: string, i: nat, q: nat, k: Tok, e: nat)
    requires i <= q < e <= |s| && NulFree(s) && Skip(s, i) == q && TokOk(k) && s[q..e] == Spelling(k)
    requires e < |s| ==> (k.Name? ==> White(s[e]) || Symbol(s[e])) && (k == Sign('>') ==> s[e] != '>')
    ensures Toks(s, i) == Tape(k, Toks(s, e))
  {
    TokFound(s, i, q, k, e);
    ToksFrom(s, i, GetToken(s, i));
  }

  /** The tokens of a line are those it is spelled from. */
  lemma {:induction false} Lexed(s: string, i: nat, g: string, sc: Script)
    requires i <= |s| && NulFree(s) && Gap(g) && ScriptOk(sc) && s[i..] == g + Spelled(sc)
    ensures Toks(s, i) == TapeOf(sc)
    decreases sc
  {
    Split(s, i, g, Spelled(sc));
    var q := i + |g|;
    if sc.Void? {
      SkipsGap(s, i, q);
    } else {
      var u, v := Spelling(sc.k), sc.gap + Spelled(sc.rest);
      Split(s, q, u, v);
      var e := q + |u|;
      assert s[q] == u[0] && !White(u[0]);
      SkipsGap(s, i, q);
      if e < |s| {
        AfterTok(sc.k, sc.gap, sc.rest, v);
        assert s[e] == v[0];
      }
      FirstTok(s, i, q, sc.k, e);
      Lexed(s, e, sc.gap, sc.rest);
    }
  }

  lemma {:induction false} GapSkipped(s: string, i: nat)
    requires i <= |s|
    ensures Gap(s[i..Skip(s, i)])
    decreases |s| - i
  {
    if i < |s| && White(s[i]) {
      GapSkipped(s, i + 1);
      assert s[i..Skip(s, i)] == [s[i]] + s[i + 1..Skip(s, i)];
    }
  }

  lemma SignSpelled(s: string, q: nat, e: nat, c: char)
    requires q < e <= |s|
    requires if c == '+' then e == q + 2 && s[q] == '>' && s[q + 1] == '>' else e == q + 1 && s[q] == c
    ensures s[q..e] == Spelling(Sign(c))
  {
  }

  lemma SignAt(s: string, i: nat, t: Token)
    requires i <= |s| && NulFree(s) && t == GetToken(s, i) && t.kind != NUL && t.kind != 'a'
    ensures if t.kind == '+' then t.eq == t.q + 2 && s[t.q] == '>' && s[t.q + 1] == '>'
            else t.eq == t.q + 1 && s[t.q] == t.kind
    ensures TokOk(TokOf(s, t)) && (t.kind == '>' && t.eq < |s| ==> s[t.eq] != '>')
  {
  }

  /** A token of the line, as it is spelled, and what may follow it. */
  lemma TokSpelled(s: string, i: nat, t: Token)
    requires i <= |s| && NulFree(s) && t == GetToken(s, i) && t.kind != NUL
    ensures TokOk(TokOf(s, t)) && s[t.q..t.eq] == Spelling(TokOf(s, t))
    ensures t.eq < |s| && t.kind == 'a' ==> !WordChar(s[t.eq])
    ensures t.eq < |s| && t.kind == '>' ==> s[t.eq] != '>'
  {
    if t.kind != 'a' {
      SignAt(s, i, t);
      SignSpelled(s, t.q, t.eq, t.kind);
    }
  }

  lemma NotRuns(s: string, i: nat, k: Tok, sc: Script)
    requires i <= |s| && s[i..] == Spelled(sc) && ScriptOk(sc)
    requires i < |s| ==> (k.Name? ==> !WordChar(s[i])) && (k == Sign('>') ==> s[i] != '>')
    ensures !Runs(k, sc)
  {
    if sc.Script? {
      assert s[i..][0] == Spelling(sc.k)[0] == s[i];
    }
  }

  lemma Pieces(s: string, i: nat, j: nat, k: nat)
    requires i <= j <= k <= |s|
    ensures s[i..] == s[i..j] + (s[j..k] + s[k..])
  {
  }

  /** Every line is spelled from its tokens. */
  lemma {:induction false} Scripted(s: string, i: nat) returns (g: string, sc: Script)
    requires i <= |s| && NulFree(s)
    ensures Gap(g) && ScriptOk(sc) && s[i..] == g + Spelled(sc) && Toks(s, i) == TapeOf(sc)
    decreases |s| - i
  {
    var t := GetToken(s, i);
    g := s[i..t.q];
    GapSkipped(s, i);
    sc := Void;
    if t.kind != NUL {
      TokSpelled(s, i, t);
      ToksFrom(s, i, t);
      var gap, rest := Scripted(s, t.eq);
      if gap == "" {
        NotRuns(s, t.eq, TokOf(s, t), rest);
      }
      sc := Script(TokOf(s, t), gap, rest);
      Pieces(s, i, t.q, t.eq);
    }
  }

  lemma {:induction false} SpelledNulFree(sc: Script)
    requires ScriptOk(sc)
    ensures NulFree(Spelled(sc))
  {
    if sc.Script? {
      SpelledNulFree(sc.rest);
    }
  }

  predicate TapeOk(ts: Tape) { ts.Tape? ==> TokOk(ts.first) && TapeOk(ts.rest) }

  /** Tokens with a blank after each. */
  function ScriptOf(ts: Tape): Script { if ts.Blank? then Void else Script(ts.first, " ", ScriptOf(ts.rest)) }

  lemma {:induction false} ScriptOfOk(ts: Tape)
    requires TapeOk(ts)
    ensures ScriptOk(ScriptOf(ts)) && TapeOf(ScriptOf(ts)) == ts
  {
    if ts.Tape? {
      ScriptOfOk(ts.rest);
    }
  }
}
