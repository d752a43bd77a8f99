/** The console's line discipline: an interrupt handler that edits a line in a ring of 128 characters,
    and readers that take whole lines. Each method is one region run under the console's lock. */
module Console {
  import opened Counters

  const INPUT_BUF: nat := 128
  const CTRL_B: int := 2
  const CTRL_D: int := 4
  const CTRL_H: int := 8
  const NEWLINE: int := 10
  const RETURN: int := 13
  const CTRL_N: int := 14
  const CTRL_P: int := 16
  const CTRL_U: int := 21
  const DELETE: int := 127

  // ---- The line editor that the ring stands for

  /** Characters that readers may take, and the line still being edited. */
  datatype Editor = Editor(avail: seq<int>, edit: seq<int>)

  predicate EndsLine(c: int) { c == NEWLINE || c == CTRL_D }

  predicate Quiet(c: int) { c == CTRL_N || c == CTRL_B || c == CTRL_P || c == 0 }

  function Typed(c: int): int { if c == RETURN then NEWLINE else c }

  /** One keystroke. */
  function Key(ed: Editor, c: int): Editor {
    if Quiet(c) then ed
    else if c == CTRL_U then ed.(edit := [])
    else if c == CTRL_H || c == DELETE then if ed.edit == [] then ed else ed.(edit := ed.edit[..|ed.edit| - 1])
    else if |ed.avail| + |ed.edit| >= INPUT_BUF then ed
    else
      var line := ed.edit + [Typed(c)];
      if EndsLine(Typed(c)) || |ed.avail| + |line| == INPUT_BUF then Editor(ed.avail + line, []) else ed.(edit := line)
  }

  /** What a read of n characters takes, if it has some already or not. A read that is not done needs more input. */
  datatype Taken = Taken(bytes: seq<int>, rest: seq<int>, done: bool)

  function Take(avail: seq<int>, n: nat, some: bool): Taken
    decreases n
  {
    if n == 0 then Taken([], avail, true)
    else if avail == [] then Taken([], avail, false)
    else if avail[0] == CTRL_D then Taken([], if some then avail else avail[1..], true)
    else if avail[0] == NEWLINE then Taken([NEWLINE], avail[1..], true)
    else
      var t := Take(avail[1..], n - 1, true);
      Taken([avail[0]] + t.bytes, t.rest, t.done)
  }

  ghost predicate EditorOk(ed: Editor) {
    |ed.avail| + |ed.edit| <= INPUT_BUF && forall k | 0 <= k < |ed.edit| :: !EndsLine(ed.edit[k])
  }

  /** Editing never takes back what readers were given, and the line being edited never holds an end of line. */
  lemma CommittedStays(ed: Editor, c: int)
    requires EditorOk(ed)
    ensures EditorOk(Key(ed, c)) && ed.avail <= Key(ed, c).avail
  {
  }

  /** Keystrokes in a row. */
  function Keys(ed: Editor, cs: seq<int>): Editor
    decreases |cs|
  {
    if cs == [] then ed else Key(Keys(ed, cs[..|cs| - 1]), cs[|cs| - 1])
  }

  lemma {:induction false} CommittedStaysForever(ed: Editor, cs: seq<int>)
    requires EditorOk(ed)
    ensures EditorOk(Keys(ed, cs)) && ed.avail <= Keys(ed, cs).avail
    decreases |cs|
  {
    if cs != [] {
      CommittedStaysForever(ed, cs[..|cs| - 1]);
      CommittedStays(Keys(ed, cs[..|cs| - 1]), cs[|cs| - 1]);
    }
  }

  // ---- What typing means, over whole sequences of keys

  lemma KeysAnd(ed: Editor, cs: seq<int>, c: int)
    ensures Keys(ed, cs + [c]) == Key(Keys(ed, cs), c)
  {
    assert (cs + [c])[..|cs|] == cs;
  }

  /** Characters that stand for themselves. */
  predicate Plain(c: int) {
    c !in {0, CTRL_B, CTRL_D, CTRL_H, NEWLINE, RETURN, CTRL_N, CTRL_P, CTRL_U, DELETE}
  }

  predicate AllPlain(cs: seq<int>) { forall k | 0 <= k < |cs| :: Plain(cs[k]) }

  function Length(ed: Editor): nat { |ed.avail| + |ed.edit| }

  /** Plain characters join the line while there is room. */
  lemma {:induction false} TypedStays(ed: Editor, cs: seq<int>)
    requires AllPlain(cs) && Length(ed) + |cs| < INPUT_BUF
    ensures Keys(ed, cs) == ed.(edit := ed.edit + cs)
    decreases |cs|
  {
    if cs == [] {
      assert ed.edit + cs == ed.edit;
    } else {
      var m := |cs| - 1;
      TypedStays(ed, cs[..m]);
      assert ed.edit + cs[..m] + [cs[m]] == ed.edit + cs;
    }
  }

  lemma KeyCommits(ed: Editor, c: int)
    requires c in {NEWLINE, RETURN, CTRL_D} || (Plain(c) && Length(ed) + 1 == INPUT_BUF)
    requires Length(ed) < INPUT_BUF
    ensures Key(ed, c) == Editor(ed.avail + (ed.edit + [if c == RETURN then NEWLINE else c]), [])
  {
  }

  lemma Regroup(a: seq<int>, b: seq<int>, c: seq<int>, d: seq<int>)
    ensures a + ((b + c) + d) == a + b + c + d
  {
  }

  /** An end of line, an end of file or the character that fills the ring gives the line to the readers. */
  lemma {:induction false} LineCommits(ed: Editor, cs: seq<int>, c: int)
    requires AllPlain(cs) && Length(ed) + |cs| < INPUT_BUF
    requires c in {NEWLINE, RETURN, CTRL_D} || (Plain(c) && Length(ed) + |cs| + 1 == INPUT_BUF)
    ensures Keys(ed, cs + [c]) == Editor(ed.avail + ed.edit + cs + [if c == RETURN then NEWLINE else c], [])
  {
    TypedStays(ed, cs);
    KeysAnd(ed, cs, c);
    KeyCommits(ed.(edit := ed.edit + cs), c);
    Regroup(ed.avail, ed.edit, cs, [if c == RETURN then NEWLINE else c]);
  }

  predicate Erases(cs: seq<int>) { forall k | 0 <= k < |cs| :: cs[k] == CTRL_H || cs[k] == DELETE }

  /** A backspace for every character typed gives the line back; more of them take its last characters. */
  lemma {:induction false} ErasedBack(ed: Editor, cs: seq<int>, ds: seq<int>)
    requires AllPlain(cs) && Length(ed) + |cs| < INPUT_BUF && Erases(ds)
    ensures Keys(ed, cs + ds) == ed.(edit := if |ds| <= |ed.edit| + |cs| then (ed.edit + cs)[..|ed.edit| + |cs| - |ds|]
                                             else [])
    ensures |ds| == |cs| ==> Keys(ed, cs + ds) == ed
    decreases |ds|
  {
    if ds == [] {
      TypedStays(ed, cs);
      assert cs + ds == cs;
    } else {
      var m := |ds| - 1;
      ErasedBack(ed, cs, ds[..m]);
      KeysAnd(ed, cs + ds[..m], ds[m]);
      assert (cs + ds[..m]) + [ds[m]] == cs + ds;
    }
    assert (ed.edit + cs)[..|ed.edit|] == ed.edit;
  }

  /** ^U takes back the whole line being edited, and nothing more. */
  lemma {:induction false} KilledBack(ed: Editor, cs: seq<int>)
    requires AllPlain(cs) && Length(ed) + |cs| < INPUT_BUF
    ensures Keys(ed, cs + [CTRL_U]) == ed.(edit := [])
  {
    TypedStays(ed, cs);
    KeysAnd(ed, cs, CTRL_U);
  }

  /** A full ring takes nothing that is typed, and the keys kept for the kernel change no line. */
  lemma {:induction false} TakesNone(ed: Editor, cs: seq<int>)
    requires forall k | 0 <= k < |cs| ::
               || cs[k] in {0, CTRL_B, CTRL_N, CTRL_P}
               || (Length(ed) >= INPUT_BUF && (Plain(cs[k]) || cs[k] in {NEWLINE, RETURN, CTRL_D}))
    ensures Keys(ed, cs) == ed
    decreases |cs|
  {
    if cs != [] {
      TakesNone(ed, cs[..|cs| - 1]);
    }
  }

  /** A read takes from the front, up to a newline or an end of file. It delivers no end-of-file character, and takes
      one away only if it has nothing to deliver. */
  lemma {:induction false} TakesLine(avail: seq<int>, n: nat, some: bool)
    ensures var t := Take(avail, n, some);
            && |t.bytes| <= n && t.bytes <= avail && CTRL_D !in t.bytes
            && (forall k | 0 <= k < |t.bytes| - 1 :: !EndsLine(t.bytes[k]))
            && t.rest == if n > 0 && !some && avail != [] && avail[0] == CTRL_D then avail[1..]
                         else avail[|t.bytes|..]
    decreases n
  {
    if n > 0 && avail != [] && !EndsLine(avail[0]) {
      TakesLine(avail[1..], n - 1, true);
      assert Take(avail, n, some).bytes == [avail[0]] + Take(avail[1..], n - 1, true).bytes;
    }
  }

  /** It is done exactly if it has n characters or a newline, or an end of file is next. */
  lemma {:induction false} TakesEnough(avail: seq<int>, n: nat, some: bool)
    ensures var t := Take(avail, n, some);
            && t.bytes <= avail
            && (t.done <==> || |t.bytes| == n || (t.bytes != [] && t.bytes[|t.bytes| - 1] == NEWLINE)
                            || (|t.bytes| < |avail| && avail[|t.bytes|] == CTRL_D))
            && (!t.done ==> t.bytes == avail)
    decreases n
  {
    if n > 0 && avail != [] && !EndsLine(avail[0]) {
      TakesEnough(avail[1..], n - 1, true);
      assert Take(avail, n, some).bytes == [avail[0]] + Take(avail[1..], n - 1, true).bytes;
    }
  }

  lemma {:induction false} StopsAtEof(avail: seq<int>, n: nat)
    requires var t := Take(avail, n, true);
             t.done && |t.bytes| < n && (t.bytes != [] ==> t.bytes[|t.bytes| - 1] != NEWLINE)
    ensures var t := Take(avail, n, true); t.rest != [] && t.rest[0] == CTRL_D
    decreases n
  {
    if avail != [] && !EndsLine(avail[0]) {
      var u := Take(avail[1..], n - 1, true);
      assert Take(avail, n, true).bytes == [avail[0]] + u.bytes;
      StopsAtEof(avail[1..], n - 1);
    }
  }

  /** A read that stops at an end of file after taking something leaves it: the next read, of any size, gets nothing
      and takes it away. */
  lemma {:induction false} EofNextTime(avail: seq<int>, n: nat, m: nat)
    requires var t := Take(avail, n, false); t.done && 0 < |t.bytes| < n && t.bytes[|t.bytes| - 1] != NEWLINE && m > 0
    ensures var t := Take(avail, n, false);
            && t.rest != [] && t.rest[0] == CTRL_D
            && Take(t.rest, m, false) == Taken([], t.rest[1..], true)
  {
    StopsAtEof(avail[1..], n - 1);
  }

  // ---- The ring

  datatype ReadEnd = Returned | Killed | Slept

  ghost function After(bytes: seq<int>, t: Taken): Taken { t.(bytes := bytes + t.bytes) }

  lemma AfterOne(bytes: seq<int>, c: int, t: Taken)
    ensures After(bytes, After([c], t)) == After(bytes + [c], t)
  {
    assert bytes + ([c] + t.bytes) == (bytes + [c]) + t.bytes;
  }

  /** The ring holds s from the count on. */
  ghost predicate Holds(ring: seq<int>, count: nat, s: seq<int>) {
    |ring| == INPUT_BUF && |s| <= INPUT_BUF
      && forall k {:trigger s[k]} | 0 <= k < |s| :: ring[(count + k) % INPUT_BUF] == s[k]
  }

  lemma Later(ring: seq<int>, count: nat, s: seq<int>)
    requires Holds(ring, count, s) && s != []
    ensures ring[count % INPUT_BUF] == s[0] && Holds(ring, count + 1, s[1..])
  {
    assert ring[(count + 0) % INPUT_BUF] == s[0];
    forall k | 0 <= k < |s| - 1
      ensures ring[(count + 1 + k) % INPUT_BUF] == s[1..][k]
    {
      assert ring[(count + (k + 1)) % INPUT_BUF] == s[k + 1];
    }
  }

  lemma Shorter(ring: seq<int>, count: nat, s: seq<int>, t: seq<int>)
    requires Holds(ring, count, s) && t <= s
    ensures Holds(ring, count, t)
  {
  }

  lemma Longer(ring: seq<int>, count: nat, s: seq<int>, c: int)
    requires Holds(ring, count, s) && |s| < INPUT_BUF
    ensures Holds(ring[(count + |s|) % INPUT_BUF := c], count, s + [c])
  {
    forall k | 0 <= k < |s|
      ensures (count + k) % INPUT_BUF != (count + |s|) % INPUT_BUF && (s + [c])[k] == s[k]
    {
      Apart(count + k, count + |s|, INPUT_BUF);
    }
  }

  class Console {
    const buf: array<int>
    var r: nat
    var w: nat
    var e: nat
    /** Readers asleep on the console. */
    var readers: set<nat>
    /** The characters in the ring from r on, those before w first, and how many were taken before them. */
    ghost var ed: Editor
    ghost var count: nat

    ghost predicate Valid()
      reads this, buf
    {
      && buf.Length == INPUT_BUF && EditorOk(ed)
      && r == count % U32 && w == (count + |ed.avail|) % U32 && e == (count + |ed.avail| + |ed.edit|) % U32
      && Holds(buf[..], count, ed.avail + ed.edit)
      && (readers != {} ==> ed.avail == [])
    }

    constructor ()
      ensures Valid() && fresh(buf) && ed == Editor([], []) && readers == {}
    {
      buf := new int[INPUT_BUF];
      r, w, e, readers, ed, count := 0, 0, 0, {}, Editor([], []), 0;
    }

    /** e--. */
    method Back()
      requires Valid() && ed.edit != []
      modifies `e, `ed
      ensures Valid() && ed == old(ed).(edit := old(ed.edit)[..|old(ed.edit)| - 1])
    {
      Bump(count + |ed.avail| + |ed.edit| - 1);
      ghost var line := ed.edit[..|ed.edit| - 1];
      Shorter(buf[..], count, ed.avail + ed.edit, ed.avail + line);
      e := (e + U32 - 1) % U32;
      ed := ed.(edit := line);
    }

    /** The character before e is the last one edited, so it ends no line. */
    lemma LastHeld()
      requires Valid() && ed.edit != []
      ensures buf[(e + U32 - 1) % U32 % INPUT_BUF] != NEWLINE
    {
      var k := |ed.avail| + |ed.edit| - 1;
      Bump(count + k);
      Wrap(count + k, INPUT_BUF);
      assert (ed.avail + ed.edit)[k] == ed.edit[|ed.edit| - 1];
      assert buf[..][(count + k) % INPUT_BUF] == (ed.avail + ed.edit)[k];
    }

    method KillLine()
      requires Valid()
      modifies `e, `ed
      ensures Valid() && ed == old(ed).(edit := [])
    {
      Tests(count + |ed.avail| + |ed.edit|, count + |ed.avail|, INPUT_BUF);
      while e != w && buf[(e + U32 - 1) % U32 % INPUT_BUF] != NEWLINE
        invariant Valid() && ed.avail == old(ed.avail) && |ed.edit| <= |old(ed.edit)|
        invariant e != w <==> ed.edit != []
        decreases |ed.edit|
      {
        Back();
        Tests(count + |ed.avail| + |ed.edit|, count + |ed.avail|, INPUT_BUF);
      }
      if e != w {
        LastHeld();
      }
    }

    method Erase()
      requires Valid()
      modifies `e, `ed
      ensures Valid()
      ensures ed == if old(ed.edit) == [] then old(ed) else old(ed).(edit := old(ed.edit)[..|old(ed.edit)| - 1])
    {
      Tests(count + |ed.avail| + |ed.edit|, count + |ed.avail|, INPUT_BUF);
      if e != w {
        Back();
      }
    }

    method Store(c: int)
      requires Valid() && |ed.avail| + |ed.edit| < INPUT_BUF
      modifies this, buf
      ensures Valid() && count == old(count) && r == old(r)
      ensures var line := old(ed.edit) + [c];
              if EndsLine(c) || |old(ed.avail)| + |line| == INPUT_BUF then ed == Editor(old(ed.avail) + line, [])
                && readers == {}
              else ed == old(ed).(edit := line) && readers == old(readers)
    {
      ghost var end, line := count + |ed.avail| + |ed.edit|, ed.edit + [c];
      Wrap(end, INPUT_BUF);
      Bump(end);
      Longer(buf[..], count, ed.avail + ed.edit, c);
      assert (ed.avail + ed.edit) + [c] == ed.avail + line;
      buf[e % INPUT_BUF] := c;
      e := (e + 1) % U32;
      Tests(end + 1, count, INPUT_BUF);
      if c == NEWLINE || c == CTRL_D || e == (r + INPUT_BUF) % U32 {
        w := e;
        readers := {};
        ed := Editor(ed.avail + line, []);
        assert ed.avail + [] == ed.avail;
      } else {
        ed := ed.(edit := line);
      }
    }

    method Insert(c: int)
      requires Valid() && !(c == CTRL_N || c == CTRL_B || c == CTRL_P || c == CTRL_U || c == CTRL_H || c == DELETE)
      modifies this, buf
      ensures Valid() && ed == Key(old(ed), c) && count == old(count) && r == old(r)
      ensures readers == if ed.avail == old(ed.avail) then old(readers) else {}
    {
      Tests(count + |ed.avail| + |ed.edit|, count, INPUT_BUF);
      if c != 0 && (e + U32 - r) % U32 < INPUT_BUF {
        var c' := if c == RETURN then NEWLINE else c;
        Store(c');
      }
    }

    /** consoleintr. */
    method Intr(c: int)
      requires Valid()
      modifies this, buf
      ensures Valid() && ed == Key(old(ed), c) && count == old(count) && r == old(r)
      ensures readers == if ed.avail == old(ed.avail) then old(readers) else {}
    {
      if c == CTRL_N || c == CTRL_B || c == CTRL_P {
        return;
      }
      if c == CTRL_U {
        KillLine();
      } else if c == CTRL_H || c == DELETE {
        Erase();
      } else {
        Insert(c);
      }
    }

    /** c = cons->buf[cons->r++ % INPUT_BUF]. */
    method Advance() returns (c: int)
      requires Valid() && ed.avail != []
      modifies `r, `ed, `count
      ensures Valid() && c == old(ed.avail[0]) && ed == old(ed).(avail := old(ed.avail)[1..]) && count == old(count) + 1
      ensures Holds(buf[..], old(count), [c] + (ed.avail + ed.edit))
    {
      Wrap(count, INPUT_BUF);
      Bump(count);
      c := buf[r % INPUT_BUF];
      ghost var all := ed.avail + ed.edit;
      assert all[0] == c;
      Later(buf[..], count, all);
      assert all[1..] == ed.avail[1..] + ed.edit && [c] + all[1..] == all;
      r := (r + 1) % U32;
      ed := ed.(avail := ed.avail[1..]);
      count := count + 1;
    }

    /** cons->r--, for a character that was just taken. */
    method Retreat(ghost c: int)
      requires Valid() && count > 0 && Holds(buf[..], count - 1, [c] + (ed.avail + ed.edit)) && readers == {}
      modifies `r, `ed, `count
      ensures Valid() && ed == old(ed).(avail := [c] + old(ed.avail)) && count == old(count) - 1
    {
      Bump(count - 1);
      assert [c] + (ed.avail + ed.edit) == ([c] + ed.avail) + ed.edit;
      r := (r + U32 - 1) % U32;
      ed := ed.(avail := [c] + ed.avail);
      count := count - 1;
    }

    /** The next character; an end of file is put back if the read has something already. */
    method TakeOne(n: nat, target: nat) returns (c: int)
      requires Valid() && 0 < n <= target && ed.avail != []
      modifies `r, `ed, `count
      ensures Valid() && ed.edit == old(ed.edit)
      ensures var t := Take(old(ed.avail), n, n < target);
              if c == CTRL_D then t == Taken([], ed.avail, true)
              else t == After([c], if c == NEWLINE then Taken([], ed.avail, true) else Take(ed.avail, n - 1, true))
    {
      c := Advance();
      if c == CTRL_D && n < target {
        Retreat(c);
        assert [c] + old(ed.avail)[1..] == old(ed.avail);
      }
      assert [c] + [] == [c];
    }

    /** consoleread with n0 characters of its target still to come, until it returns or sleeps. After a sleep it goes
        on with n. */
    method Read(p: nat, target: nat, n0: nat, killed: bool) returns (end: ReadEnd, n: nat, bytes: seq<int>)
      requires Valid() && n0 <= target && p !in readers
      modifies `r, `readers, `ed, `count
      ensures Valid() && n <= n0
      ensures var t := Take(old(ed.avail), n0, n0 < target);
              && bytes == t.bytes && n == n0 - |bytes| && ed == old(ed).(avail := t.rest)
              && (end.Returned? <==> t.done) && (end.Killed? <==> !t.done && killed)
      ensures readers == if end.Slept? then old(readers) + {p} else old(readers)
    {
      n, bytes := n0, [];
      ghost var t0 := Take(ed.avail, n0, n0 < target);
      while n > 0
        invariant 0 <= n <= n0 && n == n0 - |bytes| && Valid() && readers == old(readers) && ed.edit == old(ed.edit)
        invariant t0 == After(bytes, Take(ed.avail, n, n < target))
        decreases n
      {
        Tests(count + |ed.avail|, count, INPUT_BUF);
        if r == w {
          if killed {
            return Killed, n, bytes;
          }
          readers := readers + {p};
          return Slept, n, bytes;
        }
        var c := TakeOne(n, target);
        if c == CTRL_D {
          return Returned, n, bytes;
        }
        AfterOne(bytes, c, if c == NEWLINE then Taken([], ed.avail, true) else Take(ed.avail, n - 1, true));
        n, bytes := n - 1, bytes + [c];
        if c == NEWLINE {
          return Returned, n, bytes;
        }
      }
      end := Returned;
    }
  }
}
