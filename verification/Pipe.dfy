/** The kernel pipe: a 512-byte ring under wrapping counters, with readers and writers that sleep.
    Each method is one region of code run under the pipe's lock, so any sequence of calls is an interleaving. */
module Pipe {
  import opened Counters

  const PIPESIZE: nat := 512

  // ---- Processes

  datatype Chan = NRead | NWrite | Elsewhere

  datatype Proc = Proc(sleeping: bool, chan: Chan, killed: bool)

  predicate Asleep(p: Proc, c: Chan) { p.sleeping && p.chan == c }

  predicate Someone(procs: seq<Proc>, c: Chan) { exists q :: 0 <= q < |procs| && Asleep(procs[q], c) }

  /** What wakeup does to one process. */
  function Woken(p: Proc, c: Chan): (r: Proc)
    ensures !Asleep(r, c) && r.chan == p.chan && r.killed == p.killed && (p.chan != c ==> r.sleeping == p.sleeping)
  {
    if Asleep(p, c) then p.(sleeping := false) else p
  }

  lemma WokenOthers(ps: seq<Proc>, ps': seq<Proc>, c: Chan)
    requires |ps'| == |ps| && forall q {:trigger ps'[q]} | 0 <= q < |ps| :: ps'[q] == Woken(ps[q], c)
    ensures !Someone(ps', c) && forall d | d != c :: Someone(ps', d) <==> Someone(ps, d)
  {
    forall d | d != c
      ensures Someone(ps', d) <==> Someone(ps, d)
    {
      if q :| 0 <= q < |ps| && Asleep(ps[q], d) {
        assert Asleep(ps'[q], d);
      }
    }
  }

  lemma AsleepOthers(ps: seq<Proc>, ps': seq<Proc>, p: nat, c: Chan)
    requires p < |ps| && !ps[p].sleeping && ps' == ps[p := Proc(true, c, ps[p].killed)]
    ensures forall d | d != c :: Someone(ps', d) <==> Someone(ps, d)
  {
    forall d | d != c
      ensures Someone(ps', d) <==> Someone(ps, d)
    {
      if q :| 0 <= q < |ps| && Asleep(ps[q], d) {
        assert Asleep(ps'[q], d);
      }
    }
  }

  datatype WriteEnd = Finished | WriteFailed | WriteSlept
  datatype ReadEnd = Got(bytes: seq<int>) | ReadFailed | ReadSlept

  class Pipe {
    const data: array<int>
    var nread: nat
    var nwrite: nat
    var readopen: bool
    var writeopen: bool
    var procs: seq<Proc>
    /** Every byte ever written and every byte ever read. */
    ghost var written: seq<int>
    ghost var read: seq<int>

    /** Bytes come out as they went in, and no more than PIPESIZE are inside. */
    ghost predicate Ring()
      reads this, data
    {
      && data.Length == PIPESIZE
      && read <= written && |written| <= |read| + PIPESIZE
      && nread == |read| % U32 && nwrite == |written| % U32
      && forall j {:trigger written[j]} | |read| <= j < |written| :: data[j % PIPESIZE] == written[j]
    }

    ghost predicate WritersOk()
      reads this
    {
      Someone(procs, NWrite) ==> |written| == |read| + PIPESIZE && readopen && writeopen
    }

    ghost predicate ReadersOk()
      reads this
    {
      Someone(procs, NRead) ==> |written| == |read| && readopen && writeopen
    }

    constructor (ps: seq<Proc>)
      requires !Someone(ps, NRead) && !Someone(ps, NWrite)
      ensures Ring() && WritersOk() && ReadersOk() && fresh(data)
      ensures readopen && writeopen && written == [] && read == [] && procs == ps
    {
      data := new int[PIPESIZE];
      nread, nwrite, readopen, writeopen, procs := 0, 0, true, true, ps;
      written, read := [], [];
    }

    /** wakeup, over the whole process table. */
    method Wakeup(c: Chan)
      modifies `procs
      ensures |procs| == old(|procs|)
      ensures forall q {:trigger procs[q]} | 0 <= q < |procs| :: procs[q] == Woken(old(procs[q]), c)
      ensures !Someone(procs, c)
      ensures forall d | d != c :: Someone(procs, d) <==> old(Someone(procs, d))
    {
      ghost var ps := procs;
      var q := 0;
      while q < |procs|
        invariant 0 <= q <= |procs| == |ps|
        invariant forall k {:trigger procs[k]} | 0 <= k < |ps| :: procs[k] == if k < q then Woken(ps[k], c) else ps[k]
      {
        if procs[q].sleeping && procs[q].chan == c {
          procs := procs[q := procs[q].(sleeping := false)];
        }
        q := q + 1;
      }
      WokenOthers(ps, procs, c);
    }

    /** sleep, up to the point where the processor is given away. */
    method Sleep(p: nat, c: Chan)
      requires p < |procs| && !procs[p].sleeping
      modifies `procs
      ensures procs == old(procs)[p := Proc(true, c, old(procs[p].killed))]
      ensures Someone(procs, c) && forall d | d != c :: Someone(procs, d) <==> old(Someone(procs, d))
    {
      ghost var ps := procs;
      procs := procs[p := Proc(true, c, procs[p].killed)];
      assert Asleep(procs[p], c);
      AsleepOthers(ps, procs, p, c);
    }

    /** pi->data[pi->nwrite++ % PIPESIZE] = ch. */
    method Put(ch: int)
      requires Ring() && |written| < |read| + PIPESIZE
      modifies `nwrite, `written, data
      ensures Ring() && written == old(written) + [ch]
    {
      Wrap(|written|, PIPESIZE);
      Bump(|written|);
      forall j | |read| <= j < |written|
        ensures j % PIPESIZE != |written| % PIPESIZE
      {
        Apart(j, |written|, PIPESIZE);
      }
      data[nwrite % PIPESIZE] := ch;
      nwrite := (nwrite + 1) % U32;
      written := written + [ch];
    }

    /** pipewrite from byte i0 of src on, until it returns or sleeps. After a sleep it goes on from i. */
    method Write(p: nat, src: seq<int>, i0: nat) returns (end: WriteEnd, i: nat)
      requires Ring() && WritersOk() && p < |procs| && !procs[p].sleeping && i0 <= |src| && writeopen
      modifies `nwrite, `procs, `written, data
      ensures Ring() && WritersOk() && |procs| == old(|procs|)
      ensures old(ReadersOk()) ==>
                (ReadersOk() <==> !(old(Someone(procs, NRead)) && old(procs[p].killed) && |src| - i0 > PIPESIZE))
      ensures i0 <= i <= |src| && written == old(written) + src[i0..i]
      ensures end.Finished? <==> |src| - i0 <= PIPESIZE - old(|written| - |read|)
      ensures end.WriteFailed? ==>
                procs == old(procs) && |written| == |read| + PIPESIZE && (procs[p].killed || !readopen)
      ensures end.WriteSlept? ==>
                Asleep(procs[p], NWrite) && |written| == |read| + PIPESIZE && readopen && !procs[p].killed
      ensures !end.WriteFailed? ==>
                && !Someone(procs, NRead)
                && forall q {:trigger procs[q]} | 0 <= q < |procs| && (q != p || end.Finished?) ::
                     procs[q] == Woken(old(procs[q]), NRead)
    {
      i := i0;
      while i < |src|
        invariant i0 <= i <= |src| && Ring() && procs == old(procs)
        invariant written == old(written) + src[i0..i]
        invariant i > i0 ==> !Someone(procs, NWrite) || |written| < |read| + PIPESIZE
      {
        Tests(|written|, |read|, PIPESIZE);
        if nwrite == (nread + PIPESIZE) % U32 {
          if !readopen || procs[p].killed {
            return WriteFailed, i;
          }
          Wakeup(NRead);
          Sleep(p, NWrite);
          return WriteSlept, i;
        }
        Put(src[i]);
        assert src[i0..i + 1] == src[i0..i] + [src[i]];
        i := i + 1;
      }
      Wakeup(NRead);
      end := Finished;
    }

    /** ch = pi->data[pi->nread++ % PIPESIZE]. */
    method Take() returns (ch: int)
      requires Ring() && |read| < |written|
      modifies `nread, `read
      ensures Ring() && read == old(read) + [ch]
    {
      Wrap(|read|, PIPESIZE);
      Bump(|read|);
      ch := data[nread % PIPESIZE];
      assert ch == written[|read|];
      nread := (nread + 1) % U32;
      read := read + [ch];
    }

    /** piperead, until it returns or sleeps. After a sleep it starts over. */
    method Read(p: nat, n: nat) returns (end: ReadEnd)
      requires Ring() && WritersOk() && p < |procs| && !procs[p].sleeping && readopen
      modifies `nread, `procs, `read
      ensures Ring() && WritersOk() && |procs| == old(|procs|)
      ensures old(ReadersOk()) || end.ReadSlept? ==> ReadersOk()
      ensures end.Got? <==> old(|written| > |read|) || !writeopen
      ensures end.Got? ==> read == old(read) + end.bytes && !Someone(procs, NWrite)
      ensures end.Got? ==> |end.bytes| == if n < old(|written| - |read|) then n else old(|written| - |read|)
      ensures !end.Got? ==> read == old(read)
      ensures end.ReadFailed? ==> procs == old(procs) && procs[p].killed
      ensures end.ReadSlept? ==> procs == old(procs)[p := Proc(true, NRead, false)]
      ensures end.Got? ==> forall q {:trigger procs[q]} | 0 <= q < |procs| :: procs[q] == Woken(old(procs[q]), NWrite)
    {
      Tests(|written|, |read|, PIPESIZE);
      if nread == nwrite && writeopen {
        if procs[p].killed {
          return ReadFailed;
        }
        Sleep(p, NRead);
        return ReadSlept;
      }
      var i, bytes := 0, [];
      while i < n
        invariant 0 <= i <= n && Ring() && procs == old(procs) && |bytes| == i && read == old(read) + bytes
      {
        Tests(|written|, |read|, PIPESIZE);
        if nread == nwrite {
          break;
        }
        var ch := Take();
        i, bytes := i + 1, bytes + [ch];
      }
      Wakeup(NWrite);
      end := Got(bytes);
    }

    /** pipeclose. An end is closed when no process has it open any more, so none sleeps on its side. */
    method Close(writable: bool) returns (freed: bool)
      requires Ring() && WritersOk() && !Someone(procs, if writable then NWrite else NRead)
      modifies `readopen, `writeopen, `procs
      ensures Ring() && WritersOk() && ReadersOk() && |procs| == old(|procs|)
      ensures writeopen == (old(writeopen) && !writable) && readopen == (old(readopen) && writable)
      ensures !Someone(procs, NRead) && !Someone(procs, NWrite) && (freed <==> !readopen && !writeopen)
    {
      if writable {
        writeopen := false;
        Wakeup(NRead);
      } else {
        readopen := false;
        Wakeup(NWrite);
      }
      freed := !readopen && !writeopen;
    }

    /** kill: the victim is marked, and woken if it sleeps. */
    method Kill(p: nat)
      requires WritersOk() && p < |procs|
      modifies `procs
      ensures WritersOk() && procs == old(procs)[p := Proc(false, old(procs[p].chan), true)]
      ensures old(ReadersOk()) ==> ReadersOk()
      ensures forall c :: Someone(procs, c) ==> old(Someone(procs, c))
    {
      ghost var ps := procs;
      procs := procs[p := Proc(false, procs[p].chan, true)];
      forall c | Someone(procs, c)
        ensures Someone(ps, c)
      {
        var q :| 0 <= q < |procs| && Asleep(procs[q], c);
        assert Asleep(ps[q], c);
      }
    }
  }

  /** A killed writer that fills the pipe returns without waking a reader that sleeps on it. */
  method StrandedReader() returns (pi: Pipe)
    ensures fresh(pi) && |pi.procs| == 2 && Asleep(pi.procs[0], NRead) && |pi.written| == |pi.read| + PIPESIZE
  {
    pi := new Pipe([Proc(false, Elsewhere, false), Proc(false, Elsewhere, true)]);
    var r := pi.Read(0, 1);
    var src := seq(PIPESIZE + 1, _ => 0);
    var end, i := pi.Write(1, src, 0);
  }
}
