/** grep: the regular expressions of ^ . * $, and the loop that finds lines in a buffer. */
module Grep {
  import opened Folding
  import opened Strings

  // ---- What a pattern means

  datatype Atom = Any | Lit(c: char)
  datatype Item = One(a: Atom) | Star(a: Atom)

  /** A pattern after a leading ^ has been dealt with: what to match, and whether it must reach the end. */
  datatype Pattern = Pattern(items: seq<Item>, toEnd: bool)

  predicate Takes(a: Atom, c: char) { a.Any? || a.c == c }

  predicate Piece(i: Item, w: string) {
    match i
    case One(a) => |w| == 1 && Takes(a, w[0])
    case Star(a) => forall k | 0 <= k < |w| :: Takes(a, w[k])
  }

  function Concat(ws: seq<string>): string { if ws == [] then "" else ws[0] + Concat(ws[1..]) }

  /** w is in the language of the items: it is made of one piece for each. */
  ghost predicate Pieces(items: seq<Item>, w: string, ws: seq<string>) {
    |ws| == |items| && Concat(ws) == w && forall k | 0 <= k < |ws| :: Piece(items[k], ws[k])
  }

  ghost predicate InLanguage(items: seq<Item>, w: string) { exists ws :: Pieces(items, w, ws) }

  /** Some prefix of the text, the whole text if the pattern ends in $, is in the language. */
  ghost predicate MatchesAt(p: Pattern, text: string) {
    exists j :: 0 <= j <= |text| && InLanguage(p.items, text[..j]) && (p.toEnd ==> j == |text|)
  }

  // ---- Patterns as they are written

  function AtomOf(c: char): Atom { if c == '.' then Any else Lit(c) }

  /** * after a character repeats it, $ at the very end anchors; anywhere else both are themselves. */
  function Parse(re: string): Pattern
    decreases |re|
  {
    if re == "" then Pattern([], false)
    else if |re| > 1 && re[1] == '*' then
      var p := Parse(re[2..]);
      Pattern([Star(AtomOf(re[0]))] + p.items, p.toEnd)
    else if re == "$" then Pattern([], true)
    else
      var p := Parse(re[1..]);
      Pattern([One(AtomOf(re[0]))] + p.items, p.toEnd)
  }

  // Patterns as they are shown: every string shows one pattern, and Parse finds it

  function ShowAtom(a: Atom): char { if a.Any? then '.' else a.c }

  function ShowItem(i: Item): (u: string)
    ensures |u| >= 1 && u[0] == ShowAtom(i.a) && (|u| > 1 <==> i.Star?)
  {
    if i.One? then [ShowAtom(i.a)] else [ShowAtom(i.a), '*']
  }

  function Show(p: Pattern): string
    decreases |p.items|
  {
    if p.items == [] then if p.toEnd then "$" else ""
    else ShowItem(p.items[0]) + Show(p.(items := p.items[1..]))
  }

  /** No literal is a dot, none that follows a single character is a star, and none at the end is a dollar sign: what
      a string cannot say. */
  predicate Sayable(p: Pattern)
    decreases |p.items|
  {
    p.items != [] ==>
      var i, q := p.items[0], p.(items := p.items[1..]);
      && i.a != Lit('.') && Sayable(q)
      && (i.One? && q.items != [] ==> q.items[0].a != Lit('*'))
      && (i == One(Lit('$')) ==> q.items != [] || q.toEnd)
  }

  predicate Plain(a: Atom) { a.Any? || a.c !in ".*$" }

  /** Patterns whose literals are none of these characters are among them. */
  lemma {:induction false} PlainSayable(p: Pattern)
    requires forall k | 0 <= k < |p.items| :: Plain(p.items[k].a)
    ensures Sayable(p)
    decreases |p.items|
  {
    if p.items != [] {
      assert forall c | c == '.' || c == '*' || c == '$' :: !Plain(Lit(c)) by {
        var cs := ".*$";
        assert cs[0] == '.' && cs[1] == '*' && cs[2] == '$';
      }
      PlainSayable(p.(items := p.items[1..]));
    }
  }

  lemma {:induction false} ParseShows(re: string)
    ensures Sayable(Parse(re)) && Show(Parse(re)) == re
    ensures re != "" && Parse(re).items != [] ==> ShowAtom(Parse(re).items[0].a) == re[0]
    decreases |re|
  {
    if re != "" && re != "$" {
      var n := if |re| > 1 && re[1] == '*' then 2 else 1;
      var p, q := Parse(re), Parse(re[n..]);
      ParseShows(re[n..]);
      assert p.(items := p.items[1..]) == q;
      assert ShowItem(p.items[0]) == re[..n] && re == re[..n] + re[n..];
    }
  }

  lemma ShowFirst(p: Pattern)
    requires Sayable(p) && p.items != []
    ensures Show(p)[0] == ShowAtom(p.items[0].a)
  {
  }

  /** Parse gives back the pattern that was shown. */
  lemma {:induction false} ShowParses(p: Pattern)
    requires Sayable(p)
    ensures Parse(Show(p)) == p
    decreases |p.items|
  {
    if p.items != [] {
      var i, q := p.items[0], p.(items := p.items[1..]);
      ShowParses(q);
      var u, v, re := ShowItem(i), Show(q), Show(p);
      assert re == u + v && re[|u|..] == v && [i] + q.items == p.items;
      assert AtomOf(re[0]) == i.a;
      if i.One? && |re| > 1 {
        assert re[1] == v[0];
        if q.items != [] {
          ShowFirst(q);
        }
      }
    }
  }

  /** What match promises: somewhere in the text, or at its start if the pattern begins with ^. */
  ghost predicate Matches(re: string, text: string) {
    if re != "" && re[0] == '^' then MatchesAt(Parse(re[1..]), text)
    else exists i :: 0 <= i <= |text| && MatchesAt(Parse(re), text[i..])
  }

  /** So a match is what the shown pattern means, anchored at the start if a ^ stands before it. */
  lemma ShownMatches(p: Pattern, text: string)
    requires Sayable(p)
    ensures Matches("^" + Show(p), text) <==> MatchesAt(p, text)
    ensures (p.items != [] ==> p.items[0].a != Lit('^')) ==>
              (Matches(Show(p), text) <==> exists i :: 0 <= i <= |text| && MatchesAt(p, text[i..]))
  {
    ShowParses(p);
    assert ("^" + Show(p))[1..] == Show(p);
    if p.items != [] {
      ShowFirst(p);
    }
  }

  // ---- Languages item by item

  lemma EmptyLanguage(w: string)
    ensures InLanguage([], w) <==> w == ""
  {
    if w == "" {
      assert Pieces([], w, []);
    }
  }

  lemma ConsLanguage(i: Item, items: seq<Item>, w: string)
    ensures InLanguage([i] + items, w) <==> exists k :: 0 <= k <= |w| && Piece(i, w[..k]) && InLanguage(items, w[k..])
  {
    if InLanguage([i] + items, w) {
      var ws :| Pieces([i] + items, w, ws);
      var k := |ws[0]|;
      assert w == ws[0] + Concat(ws[1..]);
      assert w[..k] == ws[0] && w[k..] == Concat(ws[1..]);
      assert Pieces(items, w[k..], ws[1..]) by {
        assert forall t | 0 <= t < |ws| - 1 :: items[t] == ([i] + items)[t + 1] && ws[1..][t] == ws[t + 1];
      }
    }
    if k :| 0 <= k <= |w| && Piece(i, w[..k]) && InLanguage(items, w[k..]) {
      var us :| Pieces(items, w[k..], us);
      var ws := [w[..k]] + us;
      assert ws[1..] == us && w == w[..k] + w[k..];
      assert Pieces([i] + items, w, ws);
    }
  }

  // ---- Matching by cases, as the code does

  lemma EmptyPattern(text: string)
    ensures MatchesAt(Pattern([], false), text)
    ensures MatchesAt(Pattern([], true), text) <==> text == ""
  {
    EmptyLanguage(text[..0]);
    EmptyLanguage(text[..|text|]);
  }

  lemma OneMatches(a: Atom, p: Pattern, text: string)
    ensures MatchesAt(Pattern([One(a)] + p.items, p.toEnd), text)
            <==> text != "" && Takes(a, text[0]) && MatchesAt(p, text[1..])
  {
    var q := Pattern([One(a)] + p.items, p.toEnd);
    if MatchesAt(q, text) {
      var j :| 0 <= j <= |text| && InLanguage(q.items, text[..j]) && (q.toEnd ==> j == |text|);
      ConsLanguage(One(a), p.items, text[..j]);
      var k :| 0 <= k <= j && Piece(One(a), text[..j][..k]) && InLanguage(p.items, text[..j][k..]);
      assert |text[..j][..k]| == 1 && k == 1;
      assert text[..j][1..] == text[1..][..j - 1];
    }
    if text != "" && Takes(a, text[0]) && MatchesAt(p, text[1..]) {
      var j :| 0 <= j <= |text[1..]| && InLanguage(p.items, text[1..][..j]) && (p.toEnd ==> j == |text[1..]|);
      var w := text[..j + 1];
      assert w[1..] == text[1..][..j] && Piece(One(a), w[..1]);
      ConsLanguage(One(a), p.items, w);
    }
  }

  lemma StarMatches(a: Atom, p: Pattern, text: string)
    ensures MatchesAt(Pattern([Star(a)] + p.items, p.toEnd), text)
            <==> exists k :: 0 <= k <= |text| && Piece(Star(a), text[..k]) && MatchesAt(p, text[k..])
  {
    var q := Pattern([Star(a)] + p.items, p.toEnd);
    if MatchesAt(q, text) {
      var j :| 0 <= j <= |text| && InLanguage(q.items, text[..j]) && (q.toEnd ==> j == |text|);
      ConsLanguage(Star(a), p.items, text[..j]);
      var k :| 0 <= k <= j && Piece(Star(a), text[..j][..k]) && InLanguage(p.items, text[..j][k..]);
      assert text[..j][..k] == text[..k] && text[..j][k..] == text[k..][..j - k];
      assert MatchesAt(p, text[k..]);
    }
    if k :| 0 <= k <= |text| && Piece(Star(a), text[..k]) && MatchesAt(p, text[k..]) {
      var j :| 0 <= j <= |text[k..]| && InLanguage(p.items, text[k..][..j]) && (p.toEnd ==> j == |text[k..]|);
      var w := text[..k + j];
      assert w[k..] == text[k..][..j] && w[..k] == text[..k];
      ConsLanguage(Star(a), p.items, w);
    }
  }

  /** matchstar: zero or more of c, then re. */
  method MatchStar(c: char, re: string, text: string) returns (b: bool)
    ensures b <==> MatchesAt(Pattern([Star(AtomOf(c))] + Parse(re).items, Parse(re).toEnd), text)
    decreases |re|, 1
  {
    StarMatches(AtomOf(c), Parse(re), text);
    var i := 0;
    while true
      invariant 0 <= i <= |text| && Piece(Star(AtomOf(c)), text[..i])
      invariant forall k | 0 <= k < i :: !MatchesAt(Parse(re), text[k..])
      decreases |text| - i
    {
      b := MatchHere(re, text[i..]);
      if b {
        return;
      }
      if i == |text| || !(text[i] == c || c == '.') {
        break;
      }
      i := i + 1;
    }
    forall k | i < k <= |text|
      ensures !Piece(Star(AtomOf(c)), text[..k])
    {
      assert text[..k][i] == text[i];
    }
  }

  // ---- The matcher

  /** matchhere. The end of a string stands for its NUL. */
  method MatchHere(re: string, text: string) returns (b: bool)
    ensures b <==> MatchesAt(Parse(re), text)
    decreases |re|, 0
  {
    if re == "" {
      EmptyPattern(text);
      return true;
    }
    if |re| > 1 && re[1] == '*' {
      b := MatchStar(re[0], re[2..], text);
      return;
    }
    if re[0] == '$' && |re| == 1 {
      EmptyPattern(text);
      return text == "";
    }
    OneMatches(AtomOf(re[0]), Parse(re[1..]), text);
    if text != "" && (re[0] == '.' || re[0] == text[0]) {
      b := MatchHere(re[1..], text[1..]);
      return;
    }
    b := false;
  }

  /** match. */
  method Match(re: string, text: string) returns (b: bool)
    ensures b <==> Matches(re, text)
  {
    if re != "" && re[0] == '^' {
      b := MatchHere(re[1..], text);
      return;
    }
    var i := 0;
    while true
      invariant 0 <= i <= |text| && forall k | 0 <= k < i :: !MatchesAt(Parse(re), text[k..])
      decreases |text| - i
    {
      b := MatchHere(re, text[i..]);
      if b {
        return;
      }
      if i == |text| {
        return;
      }
      i := i + 1;
    }
  }

  // ---- Lines

  /** Where the first newline is; the length if there is none. */
  ghost function Newline(s: string): (q: nat)
    ensures q <= |s| && (q < |s| ==> s[q] == '\n') && forall k | 0 <= k < q :: s[k] != '\n'
  {
    if s == "" || s[0] == '\n' then 0 else 1 + Newline(s[1..])
  }

  lemma NewlineAt(s: string, q: nat)
    requires q <= |s| && (q < |s| ==> s[q] == '\n') && forall k | 0 <= k < q :: s[k] != '\n'
    ensures Newline(s) == q
  {
  }

  /** The lines of s that end in a newline, without it, and what is left after the last. */
  ghost function Lines(s: string): seq<string>
    decreases |s|
  {
    var q := Newline(s);
    if q == |s| then [] else [s[..q]] + Lines(s[q + 1..])
  }

  ghost function Tail(s: string): (t: string)
    ensures Newline(t) == |t|
    decreases |s|
  {
    var q := Newline(s);
    if q == |s| then s else Tail(s[q + 1..])
  }

  lemma Joined<T>(a: seq<T>, b: seq<T>, c: seq<T>)
    ensures a + (b + c) == (a + b) + c
  {
  }

  lemma FirstLine(s: string, q: nat, line: string, r: string)
    requires s == line + "\n" + r && |line| == q && forall k | 0 <= k < q :: line[k] != '\n'
    ensures Lines(s) == [line] + Lines(r) && Tail(s) == Tail(r)
  {
    NewlineAt(s, q);
    assert s[..q] == line && s[q + 1..] == r;
  }

  /** More input continues the line that was left. */
  lemma {:induction false} LinesOfMore(s: string, t: string)
    ensures Lines(s + t) == Lines(s) + Lines(Tail(s) + t) && Tail(s + t) == Tail(Tail(s) + t)
    decreases |s|
  {
    var q := Newline(s);
    if q < |s| {
      var line, r := s[..q], s[q + 1..];
      assert s == line + "\n" + r && s + t == line + "\n" + (r + t);
      FirstLine(s, q, line, r);
      FirstLine(s + t, q, line, r + t);
      LinesOfMore(r, t);
      Joined([line], Lines(r), Lines(Tail(r) + t));
    } else {
      assert [] + Lines(s + t) == Lines(s + t);
    }
  }

  function Unlines(lines: seq<string>): string { if lines == [] then "" else lines[0] + "\n" + Unlines(lines[1..]) }

  ghost predicate OneLine(s: string) { forall k | 0 <= k < |s| :: s[k] != '\n' }

  lemma UnlinesFirst(line: string, ls: seq<string>, tail: string)
    ensures Unlines([line] + ls) + tail == line + "\n" + (Unlines(ls) + tail)
  {
    assert ([line] + ls)[1..] == ls;
    Joined(line + "\n", Unlines(ls), tail);
  }

  /** The lines and the tail make up the text. */
  lemma {:induction false} LinesJoin(s: string)
    ensures Unlines(Lines(s)) + Tail(s) == s
    decreases |s|
  {
    var q := Newline(s);
    if q < |s| {
      var line, r := s[..q], s[q + 1..];
      assert s == line + "\n" + r;
      FirstLine(s, q, line, r);
      LinesJoin(r);
      UnlinesFirst(line, Lines(r), Tail(r));
    } else {
      assert "" + s == s;
    }
  }

  /** They are the only lines that do. */
  lemma {:induction false} LinesOnly(lines: seq<string>, tail: string)
    requires OneLine(tail) && forall k | 0 <= k < |lines| :: OneLine(lines[k])
    ensures Lines(Unlines(lines) + tail) == lines && Tail(Unlines(lines) + tail) == tail
    decreases |lines|
  {
    if lines == [] {
      assert Unlines(lines) + tail == tail;
      NewlineAt(tail, |tail|);
    } else {
      LinesOnly(lines[1..], tail);
      var r := Unlines(lines[1..]) + tail;
      assert lines == [lines[0]] + lines[1..];
      UnlinesFirst(lines[0], lines[1..], tail);
      FirstLine(Unlines(lines) + tail, |lines[0]|, lines[0], r);
    }
  }

  /** What grep prints for some lines. */
  ghost function Output(re: string, lines: seq<string>): string {
    if lines == [] then ""
    else
      var m := |lines| - 1;
      Output(re, lines[..m]) + if Matches(re, lines[m]) then lines[m] + "\n" else ""
  }

  function Pick(lines: seq<string>, at: seq<nat>): (ls: seq<string>)
    requires forall k | 0 <= k < |at| :: at[k] < |lines|
    ensures |ls| == |at| && forall k | 0 <= k < |at| :: ls[k] == lines[at[k]]
  {
    if at == [] then [] else [lines[at[0]]] + Pick(lines, at[1..])
  }

  lemma {:induction false} UnlinesMore(ls: seq<string>, line: string)
    ensures Unlines(ls + [line]) == Unlines(ls) + (line + "\n")
  {
    if ls == [] {
      assert ls + [line] == [line] && [line][1..] == [];
    } else {
      assert (ls + [line])[1..] == ls[1..] + [line];
      UnlinesMore(ls[1..], line);
    }
  }

  /** The lines at these places. */
  function Chosen(lines: seq<string>, at: seq<nat>): string {
    if lines == [] then ""
    else
      var m := |lines| - 1;
      Chosen(lines[..m], at) + if m in at then lines[m] + "\n" else ""
  }

  lemma {:induction false} ChosenSame(lines: seq<string>, at: seq<nat>, at': seq<nat>)
    requires forall i: nat | i < |lines| :: i in at <==> i in at'
    ensures Chosen(lines, at) == Chosen(lines, at')
  {
    if lines != [] {
      ChosenSame(lines[..|lines| - 1], at, at');
    }
  }

  lemma {:induction false} OutputChosen(re: string, lines: seq<string>, at: seq<nat>)
    requires forall i: nat | i < |lines| :: i in at <==> Matches(re, lines[i])
    ensures Output(re, lines) == Chosen(lines, at)
  {
    if lines != [] {
      OutputChosen(re, lines[..|lines| - 1], at);
    }
  }

  ghost predicate Ascending(at: seq<nat>, n: nat) {
    (forall k | 0 <= k < |at| :: at[k] < n) && forall j, k | 0 <= j < k < |at| :: at[j] < at[k]
  }

  lemma LastPlace(at: seq<nat>, m: nat, ats: seq<nat>)
    requires Ascending(at, m + 1) && m in at && ats == at[..|at| - 1]
    ensures at == ats + [m] && Ascending(ats, m) && forall i: nat | i < m :: i in at <==> i in ats
  {
    var k :| 0 <= k < |at| && at[k] == m;
    assert at[|at| - 1] <= m;
    assert k >= |at| - 1;
  }

  lemma PickSame(lines: seq<string>, at: seq<nat>, m: nat)
    requires m <= |lines| && Ascending(at, m)
    ensures Pick(lines, at) == Pick(lines[..m], at)
  {
  }

  lemma {:induction false} PickMore(lines: seq<string>, ats: seq<nat>, m: nat)
    requires m < |lines| && Ascending(ats, m)
    ensures Pick(lines, ats + [m]) == Pick(lines, ats) + [lines[m]]
  {
    var at := ats + [m];
    forall k | 0 <= k < |at|
      ensures Pick(lines, at)[k] == (Pick(lines, ats) + [lines[m]])[k]
    {
    }
  }

  lemma PickLast(lines: seq<string>, at: seq<nat>, m: nat, ats: seq<nat>)
    requires |lines| == m + 1 && Ascending(at, m + 1) && Ascending(ats, m) && at == ats + [m]
    ensures Unlines(Pick(lines, at)) == Unlines(Pick(lines[..m], ats)) + (lines[m] + "\n")
  {
    PickSame(lines, ats, m);
    PickMore(lines, ats, m);
    UnlinesMore(Pick(lines, ats), lines[m]);
  }

  lemma {:induction false} ChosenPicks(lines: seq<string>, at: seq<nat>)
    requires Ascending(at, |lines|)
    ensures Chosen(lines, at) == Unlines(Pick(lines, at))
    decreases |lines|
  {
    if lines != [] {
      var m := |lines| - 1;
      if m in at {
        var ats := at[..|at| - 1];
        LastPlace(at, m, ats);
        ChosenSame(lines[..m], at, ats);
        ChosenPicks(lines[..m], ats);
        PickLast(lines, at, m, ats);
      } else {
        ChosenPicks(lines[..m], at);
        PickSame(lines, at, m);
      }
    }
  }

  /** grep prints the matching lines, each once and in order, and no other. */
  lemma PrintsMatching(re: string, lines: seq<string>, at: seq<nat>)
    requires Ascending(at, |lines|) && forall i: nat | i < |lines| :: i in at <==> Matches(re, lines[i])
    ensures Output(re, lines) == Unlines(Pick(lines, at))
  {
    OutputChosen(re, lines, at);
    ChosenPicks(lines, at);
  }

  const BUFSIZE: nat := 1024

  /** A line that fits the buffer with its newline, and that no NUL cuts short. */
  ghost predicate Fits(line: string) { |line| < BUFSIZE - 1 && NulFree(line) }

  /** The lines before the first that does not fit. */
  ghost function Fitting(lines: seq<string>): (fs: seq<string>)
    ensures fs <= lines && (forall k | 0 <= k < |fs| :: Fits(fs[k])) && (fs == lines || !Fits(lines[|fs|]))
  {
    if lines == [] || !Fits(lines[0]) then [] else [lines[0]] + Fitting(lines[1..])
  }

  ghost predicate EachFits(lines: seq<string>) { forall k | 0 <= k < |lines| :: Fits(lines[k]) }

  /** Every line is reached exactly when every line fits. */
  lemma {:induction false} AllFit(lines: seq<string>)
    ensures Fitting(lines) == lines <==> EachFits(lines)
  {
    if lines != [] {
      AllFit(lines[1..]);
      if Fits(lines[0]) {
        assert Fitting(lines)[1..] == Fitting(lines[1..]);
        assert Fitting(lines) == lines <==> Fitting(lines[1..]) == lines[1..];
        assert EachFits(lines) <==> EachFits(lines[1..]) by {
          assert forall k | 1 <= k < |lines| :: lines[k] == lines[1..][k - 1];
        }
      }
    }
  }

  lemma {:induction false} FittingPrefix(done: seq<string>, rest: seq<string>)
    requires EachFits(done)
    ensures Fitting(done + rest) == done + Fitting(rest)
    decreases |done|
  {
    if done == [] {
      assert done + rest == rest && done + Fitting(rest) == Fitting(rest);
    } else {
      assert (done + rest)[1..] == done[1..] + rest;
      FittingPrefix(done[1..], rest);
    }
  }

  // ---- How far the input has been split, as a fact that stays closed until Open unfolds it

  /** Where strchr stops in s: at the first newline or NUL, or at the end. */
  ghost predicate Stop(s: string, q: nat) {
    && q <= |s| && (q < |s| ==> s[q] == '\n' || s[q] == NUL)
    && forall k | 0 <= k < q :: s[k] != '\n' && s[k] != NUL
  }

  /** There is no line in s for strchr to find. */
  ghost predicate Stuck(s: string) { exists q: nat :: Stop(s, q) && (q < |s| ==> s[q] == NUL) }

  /** s is the lines done, and then rest. */
  ghost predicate Upto(s: string, done: seq<string>, rest: string) {
    && |rest| <= |s|
    && (forall x {:trigger Open(x)} | Open(x) :: Lines(s) == done + Lines(rest) && Tail(s) == Tail(rest))
  }

  ghost predicate Printed(re: string, lines: seq<string>, out: string) {
    (lines == [] ==> out == "") && forall x {:trigger Open(x)} | Open(x) :: out == Output(re, lines)
  }

  lemma UptoStart(s: string)
    ensures Upto(s, [], s)
  {
    assert [] + Lines(s) == Lines(s);
  }

  /** Taking the line that ends at q. */
  lemma UptoLine(s: string, done: seq<string>, rest: string, q: nat, done': seq<string>, rest': string)
    requires Upto(s, done, rest) && q < |rest| && Stop(rest, q) && rest[q] == '\n' && done' == done + [rest[..q]]
    requires rest' == rest[q + 1..]
    ensures Upto(s, done', rest')
  {
    assert Open(0);
    NewlineAt(rest, q);
    assert done + ([rest[..q]] + Lines(rest')) == done' + Lines(rest');
  }

  /** More input goes on from the rest. */
  lemma UptoMore(s: string, done: seq<string>, rest: string, t: string, s': string, rest': string)
    requires Upto(s, done, rest) && s' == s + t && rest' == rest + t
    ensures Upto(s', done, rest')
  {
    assert Open(0);
    LinesOfMore(s, t);
    LinesOfMore(rest, t);
    Joined(done, Lines(rest), Lines(Tail(s) + t));
  }

  /** A NUL before any newline stays where it is: the first line, when it comes to its end, does not fit. */
  lemma StuckFirst(rest: string, t: string)
    requires Stuck(rest) && (t == "" || |rest| >= BUFSIZE - 1)
    ensures Fitting(Lines(rest + t)) == []
  {
    var q: nat :| Stop(rest, q) && (q < |rest| ==> rest[q] == NUL);
    var s := rest + t;
    assert forall k | 0 <= k < |rest| :: s[k] == rest[k];
    var e := Newline(s);
    if e < |s| {
      assert e >= |rest| || (q < e && s[..e][q] == NUL);
    }
  }

  /** When reading ends, no line that fits is left: the input is used up, or what is left fills the buffer. */
  lemma Ended(input: string, s: string, t: string, done: seq<string>, rest: string)
    requires input == s + t && Upto(s, done, rest) && Stuck(rest) && EachFits(done)
    requires t == "" || |rest| >= BUFSIZE - 1
    ensures Fitting(Lines(input)) == done
  {
    UptoMore(s, done, rest, t, input, rest + t);
    assert Open(0);
    FittingPrefix(done, Lines(rest + t));
    StuckFirst(rest, t);
    assert done + [] == done;
  }

  lemma PrintedOne(re: string, lines: seq<string>, line: string, out: string, lines': seq<string>, out': string)
    requires Printed(re, lines, out) && lines' == lines + [line]
    requires out' == out + if Matches(re, line) then line + "\n" else ""
    ensures Printed(re, lines', out')
  {
    assert Open(0);
    assert lines'[..|lines|] == lines;
  }

  class Grep {
    const re: string
    const buf: array<char>
    /** What has been written, and the lines that match was asked about. */
    var out: string
    ghost var asked: seq<string>

    constructor (pattern: string)
      ensures re == pattern && buf.Length == BUFSIZE && fresh(buf) && out == "" && asked == []
    {
      re, buf, out, asked := pattern, new char[BUFSIZE], "", [];
    }

    /** strchr for a newline: where it stops, at m at the latest. */
    method FindNewline(p: nat, m: nat) returns (q: nat)
      requires p <= m < buf.Length && buf[m] == NUL
      ensures p <= q <= m && Stop(buf[p..m], q - p)
    {
      q := p;
      while buf[q] != NUL && buf[q] != '\n'
        invariant p <= q <= m && forall k | p <= k < q :: buf[k] != '\n' && buf[k] != NUL
        decreases m - q
      {
        q := q + 1;
      }
      if q < m {
        assert buf[p..m][q - p] == buf[q];
      }
    }

    /** One line: end it, ask about it, and print it if it matches. */
    method Ask(p: nat, q: nat, m: nat)
      requires buf.Length == BUFSIZE && p <= q < m < BUFSIZE && buf[q] == '\n' && Printed(re, asked, out)
      requires EachFits(asked) && NulFree(buf[p..q])
      modifies this, buf
      ensures asked == old(asked) + [old(buf[p..q])] && Printed(re, asked, out) && EachFits(asked)
      ensures buf[q + 1..m] == old(buf[q + 1..m]) && buf[m] == old(buf[m])
    {
      buf[q] := NUL;
      var line := buf[p..q];
      var b := Match(re, line);
      if b {
        buf[q] := '\n';
        out := out + buf[p..q + 1];
        assert buf[p..q + 1] == line + "\n";
      }
      asked := asked + [line];
      PrintedOne(re, old(asked), line, old(out), asked, out);
    }

    /** The loop over the lines in the buffer, which continue what was asked of s; p is where the rest begins. */
    method Scan(m: nat, ghost s: string) returns (p: nat, ghost rest: string)
      requires buf.Length == BUFSIZE && m < BUFSIZE && buf[m] == NUL && Printed(re, asked, out)
      requires Upto(s, asked, buf[..m]) && EachFits(asked)
      modifies this, buf
      ensures p <= m && buf[p..m] == rest && Stuck(rest)
      ensures Upto(s, asked, rest) && Printed(re, asked, out) && EachFits(asked)
    {
      rest := buf[..m];
      p := 0;
      while true
        invariant p <= m && buf[m] == NUL && buf[p..m] == rest
        invariant Upto(s, asked, rest) && Printed(re, asked, out) && EachFits(asked)
        decreases m - p
      {
        var q := FindNewline(p, m);
        if buf[q] == NUL {
          assert q < m ==> rest[q - p] == buf[q];
          break;
        }
        ghost var rest' := rest[q + 1 - p..];
        assert buf[p..q] == rest[..q - p] && buf[q + 1..m] == rest';
        ghost var done := asked;
        Ask(p, q, m);
        UptoLine(s, done, rest, q - p, asked, rest');
        p, rest := q + 1, rest';
      }
    }

    /** memmove(buf, p, m). */
    method Slide(p: nat, m: nat)
      requires p + m <= buf.Length
      modifies buf
      ensures buf[..m] == old(buf[p..p + m])
    {
      forall k | 0 <= k < m {
        buf[k] := buf[p + k];
      }
    }

    /** The bytes read, after those that were left, and a NUL. */
    method Receive(m: nat, bytes: string)
      requires buf.Length == BUFSIZE && m + |bytes| < BUFSIZE
      modifies buf
      ensures buf[..m + |bytes|] == old(buf[..m]) + bytes && buf[m + |bytes|] == NUL
    {
      forall k | 0 <= k < |bytes| {
        buf[m + k] := bytes[k];
      }
      buf[m + |bytes|] := NUL;
    }

    /** A round of grep's loop: receive, scan, keep the rest. */
    method Round(m0: nat, bytes: string, ghost s: string, ghost s': string) returns (m: nat)
      requires buf.Length == BUFSIZE && m0 + |bytes| < BUFSIZE && s' == s + bytes
      requires Upto(s, asked, buf[..m0]) && Printed(re, asked, out) && EachFits(asked)
      modifies this, buf
      ensures m < BUFSIZE && Stuck(buf[..m]) && Upto(s', asked, buf[..m])
      ensures Printed(re, asked, out) && EachFits(asked)
    {
      ghost var rest := buf[..m0];
      Receive(m0, bytes);
      m := m0 + |bytes|;
      UptoMore(s, asked, rest, bytes, s', buf[..m]);
      var p;
      p, rest := Scan(m, s');
      m := m - p;
      Slide(p, m);
      assert buf[..m] == rest;
    }

    /** read: how many of the `left` bytes of input arrive, at most `room`; none only if there is neither. */
    method Read(left: nat, room: nat) returns (n: nat)
      ensures n <= left && n <= room && (n == 0 <==> left == 0 || room == 0)
    {
      if left == 0 || room == 0 {
        return 0;
      }
      n :| 0 < n <= left && n <= room;
    }

    /** grep on an input whose reads may come in any pieces. */
    method Run(input: string)
      requires buf.Length == BUFSIZE && out == "" && asked == []
      modifies this, buf
      ensures asked == Fitting(Lines(input)) && out == Output(re, asked)
    {
      var m, pos := 0, 0;
      UptoStart("");
      assert Stop("", 0);
      assert Printed(re, [], "");
      ghost var s := "";
      while true
        invariant 0 <= m < BUFSIZE && 0 <= pos <= |input| && s == input[..pos]
        invariant Stuck(buf[..m]) && Upto(s, asked, buf[..m])
        invariant Printed(re, asked, out) && EachFits(asked)
        decreases |input| - pos
      {
        var n := Read(|input| - pos, BUFSIZE - m - 1);
        if n == 0 {
          break;
        }
        ghost var s' := input[..pos + n];
        m := Round(m, input[pos..pos + n], s, s');
        pos, s := pos + n, s';
      }
      Ended(input, s, input[pos..], asked, buf[..m]);
      assert Open(0);
    }
  }
}
