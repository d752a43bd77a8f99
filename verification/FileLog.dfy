/** File writes as the log sees them. */
module FileLog {
  import opened Lists
  import opened Params
  import Bytes
  import Inodes
  import opened LogProtocol
  import opened RedoLog

  /** Whatever other operations do within their reservations, and wherever block 0 leads, log_write does not
      panic on an operation that logs no more than writei does for one chunk of a filewrite. */
  lemma ChunkNeverPanics(L: Layout, ss: seq<State>, sts: seq<Step>, i: nat, p: Pid, sb: Inodes.Super, a: int, ino: nat,
                         off: nat, n: nat, l: set<int>)
    requires Run(L, ss, sts) && i < |ss| && Frugal(MAXOPBLOCKS, ss, i) && p in ss[i].ops && L.size >= LOGSIZE
    requires sb.size < Bytes.BPB && 0 < n <= Inodes.MAXCHUNK && Inodes.FewLogged({}, l, sb, a, ino, off, n)
    requires forall b | b in LoggedBy(ss, sts, i, p) :: b in l
    ensures ss[i].ops[p] + 2 <= MAXOPBLOCKS && !TooBig(|ss[i].lh|, L.size)
  {
    Inodes.EightBlocks(sb, a, ino, off, n, {}, l);
    SubsetSize<int>(LoggedBy(ss, sts, i, p), l);
    SlotsAreBlocks(L, ss, sts, i, p);
    FewBlocksNoPanic(L, ss, sts, i, p);
  }
}
