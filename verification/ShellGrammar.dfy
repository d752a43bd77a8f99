/** The shell's command language: which lines are sentences, and the tree a sentence stands for. The parser accepts
    the sentences and no other line. */
module ShellGrammar {
  import opened Shell
  import opened ShellTokens
  import opened Strings

  // ---- Trees of words

  datatype Tree = TExec(words: seq<string>) | TRedir(t: Tree, file: string, mode: nat, fd: nat)
                | TPipe(l: Tree, r: Tree) | TList(l: Tree, r: Tree) | TBack(t: Tree)

  function Texts(s: string, args: seq<Span>): (ws: seq<string>)
    ensures |ws| == |args|
  {
    if args == [] then [] else [Text(s, args[0])] + Texts(s, args[1..])
  }

  /** A parsed command with its words read off the line. */
  function Resolve(s: string, c: Cmd): Tree {
    match c
    case Exec(args) => TExec(Texts(s, args))
    case Redir(d, to) => TRedir(Resolve(s, d), Text(s, to.file), to.mode, to.fd)
    case Pipe(l, r) => TPipe(Resolve(s, l), Resolve(s, r))
    case List(l, r) => TList(Resolve(s, l), Resolve(s, r))
    case Back(d) => TBack(Resolve(s, d))
  }

  // ---- Sentences

  /** Words and redirections in any order. */
  datatype Parts = NoPart | Word(w: string, rest: Parts) | File(sign: char, name: string, rest: Parts)

  /** A simple command, or a line in parentheses with redirections after it. */
  datatype Stage = Simple(parts: Parts) | Group(line: Line, files: Parts)
  datatype Pipeline = Last(e: Stage) | Then(e: Stage, rest: Pipeline)
  /** A pipeline with some & after it, and the line after a semicolon. */
  datatype Line = End(p: Pipeline, backs: nat) | Semi(p: Pipeline, backs: nat, rest: Line)

  predicate PartsOk(ps: Parts) {
    match ps
    case NoPart => true
    case Word(w, rest) => IsWord(w) && PartsOk(rest)
    case File(x, f, rest) => FileSign(x) && IsWord(f) && PartsOk(rest)
  }

  function WordsOf(ps: Parts): seq<string> {
    match ps
    case NoPart => []
    case Word(w, rest) => [w] + WordsOf(rest)
    case File(_, _, rest) => WordsOf(rest)
  }

  predicate StageOk(e: Stage) {
    match e
    case Simple(ps) => PartsOk(ps) && |WordsOf(ps)| < MAXARGS
    case Group(l, fs) => LineOk(l) && PartsOk(fs) && WordsOf(fs) == []
  }

  predicate PipelineOk(p: Pipeline) { StageOk(p.e) && (p.Then? ==> PipelineOk(p.rest)) }

  predicate LineOk(l: Line) { PipelineOk(l.p) && (l.Semi? ==> LineOk(l.rest)) }

  // How a sentence is written, before what comes after it

  function PartToks(ps: Parts, after: Tape): Tape {
    match ps
    case NoPart => after
    case Word(w, rest) => Tape(Name(w), PartToks(rest, after))
    case File(x, f, rest) => Tape(Sign(x), Tape(Name(f), PartToks(rest, after)))
  }

  function BackToks(n: nat, after: Tape): Tape { if n == 0 then after else Tape(Sign('&'), BackToks(n - 1, after)) }

  function StageToks(e: Stage, after: Tape): Tape {
    match e
    case Simple(ps) => PartToks(ps, after)
    case Group(l, fs) => Tape(Sign('('), LineToks(l, Tape(Sign(')'), PartToks(fs, after))))
  }

  function PipelineToks(p: Pipeline, after: Tape): Tape {
    match p
    case Last(e) => StageToks(e, after)
    case Then(e, rest) => StageToks(e, Tape(Sign('|'), PipelineToks(rest, after)))
  }

  function LineToks(l: Line, after: Tape): Tape {
    match l
    case End(p, n) => PipelineToks(p, BackToks(n, after))
    case Semi(p, n, rest) => PipelineToks(p, BackToks(n, Tape(Sign(';'), LineToks(rest, after))))
  }

  // What a sentence means

  function ModeOf(sign: char): nat { if sign == '<' then O_RDONLY else O_WRONLY_CREATE }
  function FdOf(sign: char): nat { if sign == '<' then 0 else 1 }

  /** Redirections wrap a command in the order in which they stand, the first innermost. */
  function Redirected(t: Tree, ps: Parts): Tree
    decreases ps
  {
    match ps
    case NoPart => t
    case Word(_, rest) => Redirected(t, rest)
    case File(x, f, rest) => Redirected(TRedir(t, f, ModeOf(x), FdOf(x)), rest)
  }

  function Backed(t: Tree, n: nat): Tree
    decreases n
  {
    if n == 0 then t else Backed(TBack(t), n - 1)
  }

  function StageTree(e: Stage): Tree {
    match e
    case Simple(ps) => Redirected(TExec(WordsOf(ps)), ps)
    case Group(l, fs) => Redirected(LineTree(l), fs)
  }

  function PipelineTree(p: Pipeline): Tree {
    match p
    case Last(e) => StageTree(e)
    case Then(e, rest) => TPipe(StageTree(e), PipelineTree(rest))
  }

  function LineTree(l: Line): Tree {
    match l
    case End(p, n) => Backed(PipelineTree(p), n)
    case Semi(p, n, rest) => TList(Backed(PipelineTree(p), n), LineTree(rest))
  }

  /** The line s is the sentence l, spelled as sc after the blanks g. */
  ghost predicate Sentence(s: string, g: string, sc: Script, l: Line) {
    Gap(g) && ScriptOk(sc) && s == g + Spelled(sc) && LineOk(l) && TapeOf(sc) == LineToks(l, Blank)
  }

  // ---- Redirections

  /** The parser's redirections are those among the parts. */
  ghost predicate Wraps(s: string, tos: seq<To>, ps: Parts) {
    match ps
    case NoPart => tos == []
    case Word(_, rest) => Wraps(s, tos, rest)
    case File(x, f, rest) =>
      && tos != [] && Text(s, tos[0].file) == f && tos[0].mode == ModeOf(x) && tos[0].fd == FdOf(x)
      && Wraps(s, tos[1..], rest)
  }

  lemma {:induction false} WrapMeans(s: string, c: Cmd, tos: seq<To>, ps: Parts)
    requires Wraps(s, tos, ps)
    ensures Resolve(s, Wrap(c, tos)) == Redirected(Resolve(s, c), ps)
    decreases ps
  {
    match ps
    case NoPart =>
    case Word(_, rest) => WrapMeans(s, c, tos, rest);
    case File(x, f, rest) => WrapMeans(s, Redir(c, tos[0]), tos[1..], rest);
  }

  /** parseredirs reads redirections until there are no more. */
  lemma {:induction false} RedirsRead(s: string, i: nat) returns (fs: Parts)
    requires i <= |s| && NulFree(s) && Redirs(s, i).Got?
    ensures PartsOk(fs) && WordsOf(fs) == [] && Toks(s, i) == PartToks(fs, Toks(s, Redirs(s, i).pos))
    ensures Wraps(s, Redirs(s, i).val, fs)
    decreases |s| - i
  {
    PeeksFile(s, i);
    if !Peek(s, i, "<>") {
      fs := NoPart;
    } else {
      var t := GetToken(s, i);
      var f := GetToken(s, t.next);
      Gets(s, i, t);
      Gets(s, t.next, f);
      var rest := RedirsRead(s, f.next);
      fs := File(t.kind, Text(s, Span(f.q, f.eq)), rest);
      assert Redirs(s, i).val[1..] == Redirs(s, f.next).val;
    }
  }

  lemma {:induction false} RedirsReached(s: string, i: nat, fs: Parts, after: Tape)
    requires i <= |s| && NulFree(s) && PartsOk(fs) && WordsOf(fs) == [] && Toks(s, i) == PartToks(fs, after)
    requires !StartsFile(after)
    ensures var r := Redirs(s, i); r.Got? && Toks(s, r.pos) == after && Wraps(s, r.val, fs)
    decreases fs
  {
    PeeksFile(s, i);
    if fs.File? {
      var t := GetToken(s, i);
      var f := GetToken(s, t.next);
      Gets(s, i, t);
      Gets(s, t.next, f);
      RedirsReached(s, f.next, fs.rest, after);
      assert Redirs(s, i).val[1..] == Redirs(s, f.next).val;
    }
  }

  // ---- Simple commands

  /** The redirections fs, and then ps. */
  function Before(fs: Parts, ps: Parts): Parts
    requires WordsOf(fs) == []
  {
    if fs.File? then File(fs.sign, fs.name, Before(fs.rest, ps)) else ps
  }

  lemma {:induction false} BeforeReads(fs: Parts, ps: Parts, after: Tape)
    requires WordsOf(fs) == [] && PartsOk(fs) && PartsOk(ps)
    ensures PartsOk(Before(fs, ps)) && WordsOf(Before(fs, ps)) == WordsOf(ps)
    ensures PartToks(Before(fs, ps), after) == PartToks(fs, PartToks(ps, after))
  {
    if fs.File? {
      BeforeReads(fs.rest, ps, after);
    }
  }

  lemma {:induction false} BeforeWraps(s: string, fs: Parts, ps: Parts, tos: seq<To>, tos': seq<To>)
    requires WordsOf(fs) == [] && Wraps(s, tos, fs) && Wraps(s, tos', ps)
    ensures Wraps(s, tos + tos', Before(fs, ps))
    decreases fs
  {
    if fs.File? {
      BeforeWraps(s, fs.rest, ps, tos[1..], tos');
      assert (tos + tos')[1..] == tos[1..] + tos';
    } else {
      assert tos + tos' == tos';
    }
  }

  /** The redirections at the front, and the rest. */
  function Leading(ps: Parts): (r: (Parts, Parts))
    ensures WordsOf(r.0) == [] && ps == Before(r.0, r.1) && !r.1.File? && (r.1 == ps || r.1 < ps)
    ensures PartsOk(ps) ==> PartsOk(r.0) && PartsOk(r.1)
  {
    if !ps.File? then (NoPart, ps)
    else
      var r := Leading(ps.rest);
      (File(ps.sign, ps.name, r.0), r.1)
  }

  /** No words: the end, or a sign that ends a command. */
  lemma ArgsEnd(s: string, i: nat, n: nat)
    requires i <= |s| && NulFree(s) && EndsStage(Toks(s, i))
    ensures var r := Args(s, i, n); r.Got? && r.val == ([], []) && Toks(s, r.pos) == Toks(s, i)
  {
    PeeksEnd(s, i);
    Gets(s, i, GetToken(s, i));
  }

  /** A word, and what parseexec's loop does about it. */
  lemma ArgsMore(s: string, i: nat, n: nat, t: Token)
    requires i <= |s| && NulFree(s) && t == GetToken(s, i) && !EndsStage(Toks(s, i))
    ensures var r, rs := Args(s, i, n), Redirs(s, t.next);
            && (r.Got? ==> t.kind == 'a' && n + 1 < MAXARGS && rs.Got? && Args(s, rs.pos, n + 1).Got?)
            && (t.kind == 'a' && n + 1 < MAXARGS && rs.Got? ==>
                  r == PrependArgs([Span(t.q, t.eq)], rs.val, Args(s, rs.pos, n + 1)))
  {
    PeeksEnd(s, i);
    Gets(s, i, t);
  }

  /** Redirections and parts that were read after a word, put together. */
  lemma ArgRead(s: string, t: Token, tos: seq<To>, fs: Parts, args: seq<Span>, tos': seq<To>, ps: Parts, after: Tape)
    requires WordsOf(fs) == [] && PartsOk(fs) && Wraps(s, tos, fs)
    requires PartsOk(ps) && WordsOf(ps) == Texts(s, args) && Wraps(s, tos', ps) && IsWord(Text(s, Span(t.q, t.eq)))
    ensures var w := Text(s, Span(t.q, t.eq));
            var qs := Word(w, Before(fs, ps));
            && PartsOk(qs) && WordsOf(qs) == Texts(s, [Span(t.q, t.eq)] + args) && Wraps(s, tos + tos', qs)
            && PartToks(qs, after) == Tape(Name(w), PartToks(fs, PartToks(ps, after)))
  {
    BeforeReads(fs, ps, after);
    BeforeWraps(s, fs, ps, tos, tos');
    assert ([Span(t.q, t.eq)] + args)[1..] == args;
  }

  /** parseexec's loop reads words and what follows them, until a sign that ends a command. */
  lemma {:induction false} ArgsRead(s: string, i: nat, n: nat) returns (ps: Parts)
    requires i <= |s| && NulFree(s) && Args(s, i, n).Got?
    ensures PartsOk(ps) && Toks(s, i) == PartToks(ps, Toks(s, Args(s, i, n).pos))
    ensures WordsOf(ps) == Texts(s, Args(s, i, n).val.0) && Wraps(s, Args(s, i, n).val.1, ps)
    decreases |s| - i
  {
    if EndsStage(Toks(s, i)) {
      ArgsEnd(s, i, n);
      ps := NoPart;
    } else {
      var t := GetToken(s, i);
      ArgsMore(s, i, n, t);
      Gets(s, i, t);
      var rs := Redirs(s, t.next);
      var a := Args(s, rs.pos, n + 1);
      var fs := RedirsRead(s, t.next);
      var rest := ArgsRead(s, rs.pos, n + 1);
      ArgRead(s, t, rs.val, fs, a.val.0, a.val.1, rest, Toks(s, a.pos));
      ps := Word(Text(s, Span(t.q, t.eq)), Before(fs, rest));
    }
  }

  lemma NoFile(qs: Parts, after: Tape)
    requires !qs.File? && EndsStage(after)
    ensures !StartsFile(PartToks(qs, after))
  {
  }

  /** A word and the redirections after it. */
  lemma ArgReached(s: string, i: nat, t: Token, w: string, fs: Parts, after: Tape)
    requires i <= |s| && NulFree(s) && t == GetToken(s, i) && Toks(s, i) == Tape(Name(w), PartToks(fs, after))
    requires WordsOf(fs) == [] && PartsOk(fs) && !StartsFile(after)
    ensures var rs := Redirs(s, t.next);
            && t.kind == 'a' && Text(s, Span(t.q, t.eq)) == w && rs.Got? && Wraps(s, rs.val, fs)
            && Toks(s, rs.pos) == after
  {
    Gets(s, i, t);
    RedirsReached(s, t.next, fs, after);
  }

  lemma ArgsReachedMore(s: string, i: nat, n: nat, w: string, t: Token, fs: Parts, qs: Parts, after: Tape)
    requires i <= |s| && NulFree(s) && t == GetToken(s, i) && t.kind == 'a'
    requires Text(s, Span(t.q, t.eq)) == w && IsWord(w)
    requires var rs := Redirs(s, t.next); rs.Got? && WordsOf(fs) == [] && PartsOk(fs) && Wraps(s, rs.val, fs)
    requires n + 1 < MAXARGS && PartsOk(qs) && !EndsStage(Toks(s, i))
    requires var a := Args(s, Redirs(s, t.next).pos, n + 1);
             a.Got? && Toks(s, a.pos) == after && Texts(s, a.val.0) == WordsOf(qs) && Wraps(s, a.val.1, qs)
    ensures var r, ps := Args(s, i, n), Word(w, Before(fs, qs));
            r.Got? && Toks(s, r.pos) == after && Texts(s, r.val.0) == WordsOf(ps) && Wraps(s, r.val.1, ps)
  {
    var rs := Redirs(s, t.next);
    var a := Args(s, rs.pos, n + 1);
    ArgsMore(s, i, n, t);
    ArgRead(s, t, rs.val, fs, a.val.0, a.val.1, qs, after);
  }

  /** A word, redirections after it, and the rest. */
  lemma WordFirst(ps: Parts, fs: Parts, qs: Parts, after: Tape)
    requires PartsOk(ps) && PartsOk(fs) && PartsOk(qs) && WordsOf(fs) == [] && !qs.File? && EndsStage(after)
    requires ps.Word? && ps.rest == Before(fs, qs)
    ensures PartToks(ps, after) == Tape(Name(ps.w), PartToks(fs, PartToks(qs, after)))
    ensures |WordsOf(ps)| == 1 + |WordsOf(qs)|
    ensures !StartsFile(PartToks(qs, after)) && !EndsStage(PartToks(ps, after))
  {
    BeforeReads(fs, qs, after);
    NoFile(qs, after);
  }

  lemma {:induction false} ArgsReached(s: string, i: nat, n: nat, ps: Parts, after: Tape)
    requires i <= |s| && NulFree(s) && PartsOk(ps) && !ps.File? && n + |WordsOf(ps)| < MAXARGS
    requires Toks(s, i) == PartToks(ps, after) && EndsStage(after)
    ensures var r := Args(s, i, n);
            r.Got? && Toks(s, r.pos) == after && Texts(s, r.val.0) == WordsOf(ps) && Wraps(s, r.val.1, ps)
    decreases ps
  {
    if ps.NoPart? {
      ArgsEnd(s, i, n);
    } else {
      var (fs, qs) := Leading(ps.rest);
      var t := GetToken(s, i);
      WordFirst(ps, fs, qs, after);
      ArgReached(s, i, t, ps.w, fs, PartToks(qs, after));
      ArgsReached(s, Redirs(s, t.next).pos, n + 1, qs, after);
      ArgsReachedMore(s, i, n, ps.w, t, fs, qs, after);
    }
  }

  lemma {:induction false} SimpleRead(s: string, i: nat) returns (ps: Parts)
    requires i <= |s| && NulFree(s) && !Sees(Toks(s, i), '(') && ParseExec(s, i).Got?
    ensures var r := ParseExec(s, i);
            && StageOk(Simple(ps)) && Toks(s, i) == PartToks(ps, Toks(s, r.pos))
            && Resolve(s, r.val) == StageTree(Simple(ps))
  {
    Peeks(s, i, '(');
    var rs := Redirs(s, i);
    var a := Args(s, rs.pos, 0);
    var fs := RedirsRead(s, i);
    var qs := ArgsRead(s, rs.pos, 0);
    ps := Before(fs, qs);
    BeforeReads(fs, qs, Toks(s, a.pos));
    BeforeWraps(s, fs, qs, rs.val, a.val.1);
    WrapMeans(s, Exec(a.val.0), rs.val + a.val.1, ps);
  }

  lemma NoGroup(ps: Parts, after: Tape)
    requires EndsStage(after) && PartsOk(ps)
    ensures !Sees(PartToks(ps, after), '(')
  {
  }

  lemma SimpleReached(s: string, i: nat, ps: Parts, after: Tape)
    requires i <= |s| && NulFree(s) && StageOk(Simple(ps)) && Toks(s, i) == PartToks(ps, after)
    requires EndsStage(after)
    ensures var r := ParseExec(s, i); r.Got? && Toks(s, r.pos) == after && Resolve(s, r.val) == StageTree(Simple(ps))
  {
    Peeks(s, i, '(');
    NoGroup(ps, after);
    var (fs, qs) := Leading(ps);
    BeforeReads(fs, qs, after);
    NoFile(qs, after);
    RedirsReached(s, i, fs, PartToks(qs, after));
    var rs := Redirs(s, i);
    ArgsReached(s, rs.pos, 0, qs, after);
    var a := Args(s, rs.pos, 0);
    BeforeWraps(s, fs, qs, rs.val, a.val.1);
    WrapMeans(s, Exec(a.val.0), rs.val + a.val.1, ps);
  }

  // ---- Pipelines, lines and groups

  /** A round of parseline's loop over &. */
  lemma BacksStep(s: string, c: Cmd, i: nat, t: Token)
    requires i <= |s| && NulFree(s) && t == GetToken(s, i)
    ensures if Sees(Toks(s, i), '&') then
              && i < t.next && Toks(s, i) == Tape(Sign('&'), Toks(s, t.next))
              && Backs(s, c, i) == Backs(s, Back(c), t.next)
            else Backs(s, c, i).0 == c && Toks(s, Backs(s, c, i).1) == Toks(s, i)
  {
    Peeks(s, i, '&');
    Gets(s, i, t);
  }

  function BackCmd(c: Cmd, n: nat): Cmd
    decreases n
  {
    if n == 0 then c else BackCmd(Back(c), n - 1)
  }

  lemma {:induction false} BackMeans(s: string, c: Cmd, n: nat)
    ensures Resolve(s, BackCmd(c, n)) == Backed(Resolve(s, c), n)
    decreases n
  {
    if n > 0 {
      BackMeans(s, Back(c), n - 1);
    }
  }

  /** It reads all of them. */
  lemma {:induction false} BacksAll(s: string, c: Cmd, i: nat, n: nat, after: Tape)
    requires i <= |s| && NulFree(s) && Toks(s, i) == BackToks(n, after) && !Sees(after, '&')
    ensures var b := Backs(s, c, i); Toks(s, b.1) == after && b.0 == BackCmd(c, n)
    decreases n
  {
    var t := GetToken(s, i);
    BacksStep(s, c, i, t);
    if n > 0 {
      BacksAll(s, Back(c), t.next, n - 1, after);
    }
  }

  lemma BacksReached(s: string, c: Cmd, i: nat, n: nat, after: Tape)
    requires i <= |s| && NulFree(s) && Toks(s, i) == BackToks(n, after) && !Sees(after, '&')
    ensures var b := Backs(s, c, i); Toks(s, b.1) == after && Resolve(s, b.0) == Backed(Resolve(s, c), n)
  {
    BacksAll(s, c, i, n, after);
    BackMeans(s, c, n);
  }

  /** How many & come first, and what comes after them. */
  function Ands(ts: Tape): (r: (nat, Tape))
    ensures ts == BackToks(r.0, r.1) && !Sees(r.1, '&')
  {
    if Sees(ts, '&') then (Ands(ts.rest).0 + 1, Ands(ts.rest).1) else (0, ts)
  }

  lemma BacksRead(s: string, c: Cmd, i: nat) returns (n: nat)
    requires i <= |s| && NulFree(s)
    ensures var b := Backs(s, c, i);
            Toks(s, i) == BackToks(n, Toks(s, b.1)) && Resolve(s, b.0) == Backed(Resolve(s, c), n)
  {
    var (m, after) := Ands(Toks(s, i));
    BacksReached(s, c, i, m, after);
    n := m;
  }

  /** parseline after its pipeline and its &, which end at j. */
  lemma LineStep(s: string, i: nat, q: Res<Cmd>, c: Cmd, j: nat, t: Token)
    requires i <= |s| && NulFree(s) && q == ParsePipe(s, i) && q.Got? && (c, j) == Backs(s, q.val, q.pos)
    requires t == GetToken(s, j)
    ensures var r := ParseLine(s, i);
            if Sees(Toks(s, j), ';') then
              var rest := ParseLine(s, t.next);
              && i < t.next && Toks(s, j) == Tape(Sign(';'), Toks(s, t.next))
              && r == if rest.Panic? then rest else Got(List(c, rest.val), rest.pos)
            else r.Got? && r.val == c && Toks(s, r.pos) == Toks(s, j)
  {
    Peeks(s, j, ';');
    Gets(s, j, t);
  }

  lemma {:induction false} ExecRead(s: string, i: nat) returns (e: Stage)
    requires i <= |s| && NulFree(s) && ParseExec(s, i).Got?
    ensures var r := ParseExec(s, i);
            StageOk(e) && Toks(s, i) == StageToks(e, Toks(s, r.pos)) && Resolve(s, r.val) == StageTree(e)
    decreases |s| - i, 2
  {
    Peeks(s, i, '(');
    if Peek(s, i, "(") {
      e := GroupRead(s, i);
    } else {
      var ps := SimpleRead(s, i);
      e := Simple(ps);
    }
  }

  lemma {:induction false} GroupRead(s: string, i: nat) returns (e: Stage)
    requires i <= |s| && NulFree(s) && ParseBlock(s, i).Got?
    ensures var r := ParseBlock(s, i);
            StageOk(e) && Toks(s, i) == StageToks(e, Toks(s, r.pos)) && Resolve(s, r.val) == StageTree(e)
    decreases |s| - i, 1
  {
    Peeks(s, i, '(');
    var t := GetToken(s, i);
    Gets(s, i, t);
    var r := ParseLine(s, t.next);
    var l := LineRead(s, t.next);
    Peeks(s, r.pos, ')');
    var u := GetToken(s, r.pos);
    Gets(s, r.pos, u);
    var fs := RedirsRead(s, u.next);
    WrapMeans(s, r.val, Redirs(s, u.next).val, fs);
    e := Group(l, fs);
  }

  /** parsepipe after its first command, which ends at j. */
  lemma PipeStep(s: string, i: nat, c: Cmd, j: nat, t: Token)
    requires i <= |s| && NulFree(s) && ParseExec(s, i) == Got(c, j) && t == GetToken(s, j)
    ensures var r := ParsePipe(s, i);
            if Sees(Toks(s, j), '|') then
              var rest := ParsePipe(s, t.next);
              && i < t.next && Toks(s, j) == Tape(Sign('|'), Toks(s, t.next))
              && r == if rest.Panic? then rest else Got(Pipe(c, rest.val), rest.pos)
            else r.Got? && r.val == c && Toks(s, r.pos) == Toks(s, j)
  {
    Peeks(s, j, '|');
    Gets(s, j, t);
  }

  lemma {:induction false} PipelineRead(s: string, i: nat) returns (p: Pipeline)
    requires i <= |s| && NulFree(s) && ParsePipe(s, i).Got?
    ensures var r := ParsePipe(s, i);
            PipelineOk(p) && Toks(s, i) == PipelineToks(p, Toks(s, r.pos)) && Resolve(s, r.val) == PipelineTree(p)
    decreases |s| - i, 3
  {
    var e := ExecRead(s, i);
    var j := ParseExec(s, i).pos;
    var t := GetToken(s, j);
    PipeStep(s, i, ParseExec(s, i).val, j, t);
    if Sees(Toks(s, j), '|') {
      var rest := PipelineRead(s, t.next);
      p := Then(e, rest);
    } else {
      p := Last(e);
    }
  }

  /** The tree e, made of the tree c before a semicolon and d after it, is the line l. */
  lemma LineMeans(l: Line, c: Tree, d: Tree, e: Tree)
    requires c == Backed(PipelineTree(l.p), l.backs) && e == if l.End? then c else TList(c, d)
    requires l.Semi? ==> d == LineTree(l.rest)
    ensures e == LineTree(l)
  {
  }

  lemma ListMeans(s: string, c: Cmd, d: Cmd)
    ensures Resolve(s, List(c, d)) == TList(Resolve(s, c), Resolve(s, d))
  {
  }

  lemma LineWritten(l: Line, ts: Tape, ts1: Tape, ts2: Tape, after: Tape)
    requires ts == PipelineToks(l.p, ts1) && ts1 == BackToks(l.backs, ts2)
    requires ts2 == if l.End? then after else Tape(Sign(';'), LineToks(l.rest, after))
    ensures ts == LineToks(l, after)
  {
  }

  lemma {:induction false} LineRead(s: string, i: nat) returns (l: Line)
    requires i <= |s| && NulFree(s) && ParseLine(s, i).Got?
    ensures var r := ParseLine(s, i);
            LineOk(l) && Toks(s, i) == LineToks(l, Toks(s, r.pos)) && Resolve(s, r.val) == LineTree(l)
    decreases |s| - i, 4
  {
    var p := PipelineRead(s, i);
    var q := ParsePipe(s, i);
    var n := BacksRead(s, q.val, q.pos);
    var (c, j) := Backs(s, q.val, q.pos);
    var t := GetToken(s, j);
    LineStep(s, i, q, c, j, t);
    var r, d := ParseLine(s, i), c;
    l := End(p, n);
    if Sees(Toks(s, j), ';') {
      var rest := LineRead(s, t.next);
      l, d := Semi(p, n, rest), ParseLine(s, t.next).val;
    }
    LineWritten(l, Toks(s, i), Toks(s, q.pos), Toks(s, j), Toks(s, r.pos));
    ListMeans(s, c, d);
    LineMeans(l, Resolve(s, c), Resolve(s, d), Resolve(s, r.val));
  }

  lemma {:induction false} StageReached(s: string, i: nat, e: Stage, after: Tape)
    requires i <= |s| && NulFree(s) && StageOk(e) && Toks(s, i) == StageToks(e, after) && EndsStage(after)
    ensures var r := ParseExec(s, i); r.Got? && Toks(s, r.pos) == after && Resolve(s, r.val) == StageTree(e)
    decreases e
  {
    match e
    case Simple(ps) =>
      SimpleReached(s, i, ps, after);
    case Group(l, fs) =>
      Peeks(s, i, '(');
      var t := GetToken(s, i);
      Gets(s, i, t);
      LineReached(s, t.next, l, Tape(Sign(')'), PartToks(fs, after)));
      var r := ParseLine(s, t.next);
      Peeks(s, r.pos, ')');
      var u := GetToken(s, r.pos);
      Gets(s, r.pos, u);
      NoFile(NoPart, after);
      RedirsReached(s, u.next, fs, after);
      WrapMeans(s, r.val, Redirs(s, u.next).val, fs);
  }

  lemma {:induction false} PipelineReached(s: string, i: nat, p: Pipeline, after: Tape)
    requires i <= |s| && NulFree(s) && PipelineOk(p) && Toks(s, i) == PipelineToks(p, after) && EndsPipeline(after)
    ensures var r := ParsePipe(s, i); r.Got? && Toks(s, r.pos) == after && Resolve(s, r.val) == PipelineTree(p)
    decreases p
  {
    match p
    case Last(e) =>
      StageReached(s, i, e, after);
      var j := ParseExec(s, i).pos;
      PipeStep(s, i, ParseExec(s, i).val, j, GetToken(s, j));
    case Then(e, rest) =>
      StageReached(s, i, e, Tape(Sign('|'), PipelineToks(rest, after)));
      var j := ParseExec(s, i).pos;
      var t := GetToken(s, j);
      PipeStep(s, i, ParseExec(s, i).val, j, t);
      PipelineReached(s, t.next, rest, after);
  }

  /** What comes after the & of a line. */
  function Later(l: Line, after: Tape): Tape {
    if l.End? then after else Tape(Sign(';'), LineToks(l.rest, after))
  }

  lemma LaterSigns(l: Line, after: Tape)
    requires EndsLine(after)
    ensures EndsPipeline(BackToks(l.backs, Later(l, after))) && !Sees(Later(l, after), '&')
    ensures Sees(Later(l, after), ';') <==> l.Semi?
  {
  }

  lemma {:induction false} LineReached(s: string, i: nat, l: Line, after: Tape)
    requires i <= |s| && NulFree(s) && LineOk(l) && Toks(s, i) == LineToks(l, after) && EndsLine(after)
    ensures var r := ParseLine(s, i); r.Got? && Toks(s, r.pos) == after && Resolve(s, r.val) == LineTree(l)
    decreases l
  {
    LaterSigns(l, after);
    PipelineReached(s, i, l.p, BackToks(l.backs, Later(l, after)));
    var q := ParsePipe(s, i);
    BacksReached(s, q.val, q.pos, l.backs, Later(l, after));
    var (c, j) := Backs(s, q.val, q.pos);
    var t := GetToken(s, j);
    LineStep(s, i, q, c, j, t);
    var d := c;
    if l.Semi? {
      LineReached(s, t.next, l.rest, after);
      d := ParseLine(s, t.next).val;
    }
    ListMeans(s, c, d);
    LineMeans(l, Resolve(s, c), Resolve(s, d), Resolve(s, ParseLine(s, i).val));
  }

  // ---- The parser accepts the sentences, and gives them their meaning

  lemma Reached(s: string, g: string, sc: Script, l: Line)
    requires Sentence(s, g, sc, l)
    ensures NulFree(s) && ParseCmd(s).Got? && Resolve(s, ParseCmd(s).val) == LineTree(l)
  {
    SpelledNulFree(sc);
    Lexed(s, 0, g, sc);
    LineReached(s, 0, l, Blank);
    NoToks(s, ParseLine(s, 0).pos);
  }

  lemma Read(s: string) returns (g: string, sc: Script, l: Line)
    requires NulFree(s) && ParseCmd(s).Got?
    ensures Sentence(s, g, sc, l)
  {
    l := LineRead(s, 0);
    NoToks(s, ParseLine(s, 0).pos);
    g, sc := Scripted(s, 0);
    assert s[0..] == s;
  }

  /** A line parses exactly if it is a sentence; then the command is what the sentence means. */
  lemma ParsesSentences(s: string)
    requires NulFree(s)
    ensures ParseCmd(s).Got? <==> exists g, sc, l :: Sentence(s, g, sc, l)
    ensures forall g, sc, l | Sentence(s, g, sc, l) :: Resolve(s, ParseCmd(s).val) == LineTree(l)
  {
    if ParseCmd(s).Got? {
      var g, sc, l := Read(s);
    }
    forall g, sc, l | Sentence(s, g, sc, l)
      ensures ParseCmd(s).Got? && Resolve(s, ParseCmd(s).val) == LineTree(l)
    {
      Reached(s, g, sc, l);
    }
  }

  // ---- Trees as they are printed, with the parentheses that the grammar needs

  predicate Printable(t: Tree) {
    match t
    case TExec(ws) => |ws| < MAXARGS && forall k | 0 <= k < |ws| :: IsWord(ws[k])
    case TRedir(u, f, mode, fd) => Printable(u) && IsWord(f)
      && ((mode == O_RDONLY && fd == 0) || (mode == O_WRONLY_CREATE && fd == 1))
    case TPipe(l, r) => Printable(l) && Printable(r)
    case TList(l, r) => Printable(l) && Printable(r)
    case TBack(u) => Printable(u)
  }

  function Words(ws: seq<string>): Parts { if ws == [] then NoPart else Word(ws[0], Words(ws[1..])) }

  function AddLast(ps: Parts, x: char, f: string): Parts {
    match ps
    case NoPart => File(x, f, NoPart)
    case Word(w, rest) => Word(w, AddLast(rest, x, f))
    case File(y, g, rest) => File(y, g, AddLast(rest, x, f))
  }

  function AddFile(e: Stage, x: char, f: string): Stage {
    match e
    case Simple(ps) => Simple(AddLast(ps, x, f))
    case Group(l, fs) => Group(l, AddLast(fs, x, f))
  }

  /** A tree without the & around it, and how many they are. */
  function Base(t: Tree): (u: Tree)
    ensures !u.TBack? && (u == t || u < t) && (Printable(t) ==> Printable(u))
  {
    if t.TBack? then Base(t.t) else t
  }

  function Depth(t: Tree): nat { if t.TBack? then Depth(t.t) + 1 else 0 }

  function StageOf(t: Tree): Stage
    decreases t, if t.TExec? || t.TRedir? then 0 else 4
  {
    match t
    case TExec(ws) => Simple(Words(ws))
    case TRedir(u, f, _, fd) => AddFile(StageOf(u), if fd == 0 then '<' else '>', f)
    case _ => Group(LineOf(t), NoPart)
  }

  function PipelineOf(t: Tree): Pipeline
    decreases t, if t.TPipe? then 1 else if t.TExec? || t.TRedir? then 2 else 5
  {
    if t.TPipe? then Then(StageOf(t.l), PipelineOf(t.r)) else Last(StageOf(t))
  }

  function LineOf(t: Tree): Line
    decreases t, 3
  {
    if t.TList? then Semi(PipelineOf(Base(t.l)), Depth(t.l), LineOf(t.r)) else End(PipelineOf(Base(t)), Depth(t))
  }

  lemma {:induction false} WordsMean(ws: seq<string>, t: Tree)
    requires forall k | 0 <= k < |ws| :: IsWord(ws[k])
    ensures WordsOf(Words(ws)) == ws && PartsOk(Words(ws)) && Redirected(t, Words(ws)) == t
  {
    if ws != [] {
      WordsMean(ws[1..], t);
    }
  }

  lemma {:induction false} AddLastMeans(ps: Parts, x: char, f: string, t: Tree)
    requires PartsOk(ps) && FileSign(x) && IsWord(f)
    ensures var qs := AddLast(ps, x, f);
            && PartsOk(qs) && WordsOf(qs) == WordsOf(ps)
            && Redirected(t, qs) == TRedir(Redirected(t, ps), f, ModeOf(x), FdOf(x))
    decreases ps
  {
    match ps
    case NoPart =>
    case Word(w, rest) => AddLastMeans(rest, x, f, t);
    case File(y, g, rest) => AddLastMeans(rest, x, f, TRedir(t, g, ModeOf(y), FdOf(y)));
  }

  lemma AddFileMeans(e: Stage, x: char, f: string)
    requires StageOk(e) && FileSign(x) && IsWord(f)
    ensures StageOk(AddFile(e, x, f)) && StageTree(AddFile(e, x, f)) == TRedir(StageTree(e), f, ModeOf(x), FdOf(x))
  {
    match e
    case Simple(ps) => AddLastMeans(ps, x, f, TExec(WordsOf(ps)));
    case Group(l, fs) => AddLastMeans(fs, x, f, LineTree(l));
  }

  lemma {:induction false} BackedAgain(t: Tree, n: nat)
    ensures Backed(TBack(t), n) == TBack(Backed(t, n))
    decreases n
  {
    if n > 0 {
      BackedAgain(TBack(t), n - 1);
    }
  }

  lemma {:induction false} BaseMeans(t: Tree)
    ensures Backed(Base(t), Depth(t)) == t
  {
    if t.TBack? {
      BaseMeans(t.t);
      BackedAgain(Base(t.t), Depth(t.t));
    }
  }

  lemma {:induction false} StageOfMeans(t: Tree)
    requires Printable(t)
    ensures StageOk(StageOf(t)) && StageTree(StageOf(t)) == t
    decreases t, if t.TExec? || t.TRedir? then 0 else 4
  {
    match t
    case TExec(ws) => WordsMean(ws, t);
    case TRedir(u, f, _, fd) =>
      StageOfMeans(u);
      AddFileMeans(StageOf(u), if fd == 0 then '<' else '>', f);
    case _ => LineOfMeans(t);
  }

  lemma {:induction false} PipelineOfMeans(t: Tree)
    requires Printable(t)
    ensures PipelineOk(PipelineOf(t)) && PipelineTree(PipelineOf(t)) == t
    decreases t, if t.TPipe? then 1 else if t.TExec? || t.TRedir? then 2 else 5
  {
    if t.TPipe? {
      StageOfMeans(t.l);
      PipelineOfMeans(t.r);
    } else {
      StageOfMeans(t);
    }
  }

  lemma {:induction false} LineOfMeans(t: Tree)
    requires Printable(t)
    ensures LineOk(LineOf(t)) && LineTree(LineOf(t)) == t
    decreases t, 3
  {
    if t.TList? {
      PipelineOfMeans(Base(t.l));
      BaseMeans(t.l);
      LineOfMeans(t.r);
    } else {
      PipelineOfMeans(Base(t));
      BaseMeans(t);
    }
  }

  lemma {:induction false} PartTapeOk(ps: Parts, after: Tape)
    requires PartsOk(ps) && TapeOk(after)
    ensures TapeOk(PartToks(ps, after))
  {
    if !ps.NoPart? {
      PartTapeOk(ps.rest, after);
    }
  }

  lemma {:induction false} BackTapeOk(n: nat, after: Tape)
    requires TapeOk(after)
    ensures TapeOk(BackToks(n, after))
    decreases n
  {
    if n > 0 {
      BackTapeOk(n - 1, after);
    }
  }

  lemma {:induction false} StageTapeOk(e: Stage, after: Tape)
    requires StageOk(e) && TapeOk(after)
    ensures TapeOk(StageToks(e, after))
    decreases e
  {
    match e
    case Simple(ps) => PartTapeOk(ps, after);
    case Group(l, fs) =>
      PartTapeOk(fs, after);
      LineTapeOk(l, Tape(Sign(')'), PartToks(fs, after)));
  }

  lemma {:induction false} PipelineTapeOk(p: Pipeline, after: Tape)
    requires PipelineOk(p) && TapeOk(after)
    ensures TapeOk(PipelineToks(p, after))
    decreases p
  {
    match p
    case Last(e) => StageTapeOk(e, after);
    case Then(e, rest) =>
      PipelineTapeOk(rest, after);
      StageTapeOk(e, Tape(Sign('|'), PipelineToks(rest, after)));
  }

  lemma {:induction false} LineTapeOk(l: Line, after: Tape)
    requires LineOk(l) && TapeOk(after)
    ensures TapeOk(LineToks(l, after))
    decreases l
  {
    if l.Semi? {
      LineTapeOk(l.rest, after);
    }
    BackTapeOk(l.backs, Later(l, after));
    PipelineTapeOk(l.p, BackToks(l.backs, Later(l, after)));
  }

  function Print(t: Tree): string { Spelled(ScriptOf(LineToks(LineOf(t), Blank))) }

  /** Parsing what was printed gives the tree back. */
  lemma RoundTrip(t: Tree)
    requires Printable(t)
    ensures NulFree(Print(t))
    ensures var r := ParseCmd(Print(t)); r.Got? && Resolve(Print(t), r.val) == t
  {
    LineOfMeans(t);
    var ts := LineToks(LineOf(t), Blank);
    LineTapeOk(LineOf(t), Blank);
    ScriptOfOk(ts);
    assert "" + Spelled(ScriptOf(ts)) == Print(t);
    Reached(Print(t), "", ScriptOf(ts), LineOf(t));
  }
}
