/** Disk blocks and block writes, shared by the buffer cache and the log. */
module Blocks {
  import opened Folding

  /** Words in a block: BSIZE / sizeof(uint). */
  const WORDS: nat := 256

  /** A block is seen as 32-bit words; nothing here does arithmetic on a word. */
  datatype Block = Block(words: seq<int>)

  type Disk = seq<Block>

  /** One disk write of one block, the unit that a crash cannot tear. */
  datatype Write = Write(bno: nat, data: Block)

  ghost predicate Fits(size: nat, ws: seq<Write>) {
    forall k | 0 <= k < |ws| :: ws[k].bno < size
  }

  /** The disk after the writes `ws`, in order. */
  ghost function Apply(d: Disk, ws: seq<Write>): (r: Disk)
    requires Fits(|d|, ws)
    ensures |r| == |d|
  {
    if ws == [] then d
    else
      var last := ws[|ws| - 1];
      Apply(d, ws[..|ws| - 1])[last.bno := last.data]
  }

  /** One more write extends the disk reached by a prefix of the writes. */
  lemma ApplyNext(d: Disk, ws: seq<Write>, k: nat)
    requires k < |ws| && Fits(|d|, ws)
    ensures Apply(d, ws[..k + 1]) == Apply(d, ws[..k])[ws[k].bno := ws[k].data]
  {
    assert ws[..k + 1][..k] == ws[..k];
  }

  /** e is the disk after the first k of the writes. */
  ghost predicate Reached(d: Disk, ws: seq<Write>, k: nat, e: Disk) {
    && k <= |ws| && Fits(|d|, ws)
    && |e| == |d| && (forall x {:trigger Open(x)} | Open(x) :: e == Apply(d, ws[..k]))
  }

  lemma ReachedStart(d: Disk, ws: seq<Write>)
    requires Fits(|d|, ws)
    ensures Reached(d, ws, 0, d)
  {
    assert ws[..0] == [];
  }

  lemma ReachedNext(d: Disk, ws: seq<Write>, k: nat, e: Disk, w: Write, k': nat, e': Disk)
    requires Reached(d, ws, k, e) && k < |ws| && w == ws[k] && k' == k + 1 && w.bno < |e| && e' == e[w.bno := w.data]
    ensures Reached(d, ws, k', e')
  {
    assert Open(0);
    ApplyNext(d, ws, k);
  }

  lemma {:induction false} ApplyAppend(d: Disk, ws: seq<Write>, w: Write)
    requires Fits(|d|, ws) && w.bno < |d|
    ensures Fits(|d|, ws + [w])
    ensures Apply(d, ws + [w]) == Apply(d, ws)[w.bno := w.data]
  {
    assert (ws + [w])[..|ws|] == ws;
  }

  lemma {:induction false} ApplyConcat(d: Disk, ws: seq<Write>, vs: seq<Write>)
    requires Fits(|d|, ws) && Fits(|d|, vs)
    ensures Fits(|d|, ws + vs)
    ensures Apply(d, ws + vs) == Apply(Apply(d, ws), vs)
  {
    if vs == [] {
      assert ws + vs == ws;
    } else {
      var n := |vs| - 1;
      ApplyConcat(d, ws, vs[..n]);
      assert (ws + vs)[..|ws + vs| - 1] == ws + vs[..n];
    }
  }
}
