/** The on-disk redo log: what a commit writes, what a recovery writes, and what
    survives a crash between any two of those writes. */
module RedoLog {
  import opened Blocks
  import opened Folding
  import opened Params

  /** Superblock fields the log uses: header block `start`, `size` blocks in all. */
  datatype Layout = Layout(start: nat, size: nat) {
    predicate Home(b: nat) { b < start || start + size <= b }

    predicate Fits(d: Disk) { 1 <= size && start + size <= |d| && |d[start].words| == WORDS }

    function Slot(k: nat): nat { start + 1 + k }

    /** A block list that the log has room for. */
    predicate Loggable(lh: seq<nat>, diskSize: nat) {
      && |lh| <= LOGSIZE
      && |lh| < size
      && forall k | 0 <= k < |lh| :: lh[k] < diskSize && Home(lh[k])
    }
  }

  /** The header block's n and block[0..n). */
  predicate HeaderOk(b: Block, L: Layout, diskSize: nat) {
    && |b.words| == WORDS
    && 0 <= b.words[0] <= LOGSIZE
    && b.words[0] < L.size
    && forall k | 1 <= k <= b.words[0] :: 0 <= b.words[k] < diskSize && L.Home(b.words[k])
  }

  function Header(b: Block, L: Layout, diskSize: nat): (lh: seq<nat>)
    requires HeaderOk(b, L, diskSize)
    ensures L.Loggable(lh, diskSize) && |lh| == b.words[0]
  {
    seq(b.words[0], k requires 0 <= k < b.words[0] => b.words[1 + k])
  }

  /** write_head overwrites n and the first n entries and keeps the rest of the block. */
  function PutHeader(b: Block, lh: seq<nat>): (r: Block)
    requires |lh| <= LOGSIZE && |b.words| == WORDS
    ensures |r.words| == WORDS
  {
    Block([|lh|] + lh + b.words[1 + |lh|..])
  }

  lemma PutThenGet(b: Block, lh: seq<nat>, L: Layout, diskSize: nat)
    requires L.Loggable(lh, diskSize) && |b.words| == WORDS
    ensures HeaderOk(PutHeader(b, lh), L, diskSize)
    ensures Header(PutHeader(b, lh), L, diskSize) == lh
    ensures forall k | |lh| < k < WORDS :: PutHeader(b, lh).words[k] == b.words[k]
  {
    var h := PutHeader(b, lh).words;
    assert forall k | 0 <= k < |lh| :: h[1 + k] == lh[k];
  }

  ghost predicate DiskOk(d: Disk, L: Layout) {
    L.Fits(d) && HeaderOk(d[L.start], L, |d|)
  }

  /** The n of the header on disk. */
  ghost function Count(d: Disk, L: Layout): int
    requires L.Fits(d)
  {
    d[L.start].words[0]
  }

  ghost predicate Clean(d: Disk, L: Layout) {
    L.Fits(d) && Count(d, L) == 0
  }

  ghost predicate SameHome(d: Disk, e: Disk, L: Layout) {
    |d| == |e| && forall b | 0 <= b < |d| && L.Home(b) :: d[b] == e[b]
  }

  /** install_trans: copy log slot k to the block the header names for it. */
  ghost function InstallWrites(d: Disk, L: Layout, lh: seq<nat>): (ws: seq<Write>)
    requires L.Fits(d) && L.Loggable(lh, |d|)
    ensures |ws| == |lh| && Fits(|d|, ws)
  {
    seq(|lh|, k requires 0 <= k < |lh| => Write(lh[k], d[L.Slot(k)]))
  }

  /** recover_from_log: install what the header lists, then clear the header. */
  ghost function RecoverWrites(d: Disk, L: Layout): (ws: seq<Write>)
    requires DiskOk(d, L)
    ensures |ws| == Count(d, L) + 1 && Fits(|d|, ws)
  {
    InstallWrites(d, L, Header(d[L.start], L, |d|)) + [Write(L.start, PutHeader(d[L.start], []))]
  }

  ghost function Recover(d: Disk, L: Layout): (r: Disk)
    requires DiskOk(d, L)
    ensures |r| == |d|
  {
    Apply(d, RecoverWrites(d, L))
  }

  /** commit: the logged blocks' cached contents `img` to the slots, the header,
      the home blocks, and the cleared header. */
  ghost function CommitWrites(d: Disk, L: Layout, lh: seq<nat>, img: Disk): (ws: seq<Write>)
    requires L.Fits(d) && L.Loggable(lh, |d|) && |img| == |d|
    ensures |ws| == 2 * |lh| + 2 && Fits(|d|, ws)
  {
    var n := |lh|;
    var h := PutHeader(d[L.start], lh);
    seq(2 * n + 2, k requires 0 <= k < 2 * n + 2 =>
      if k < n then Write(L.Slot(k), img[lh[k]])
      else if k == n then Write(L.start, h)
      else if k <= 2 * n then Write(lh[k - n - 1], img[lh[k - n - 1]])
      else Write(L.start, PutHeader(h, [])))
  }

  /** The home blocks once the transaction is in: logged blocks from `img`, the rest as they were. */
  ghost predicate IsPost(d: Disk, L: Layout, lh: seq<nat>, img: Disk, e: Disk)
    requires |img| == |d|
  {
    && |e| == |d|
    && forall b | 0 <= b < |d| && L.Home(b) :: e[b] == if b in lh then img[b] else d[b]
  }

  // ---- The disk part-way through a recovery or a commit

  /** Recovery cut after k < n + 1 writes: header, slots and unlisted home blocks are untouched,
      and the first k listed blocks have been overwritten from the slots. */
  lemma {:induction false} RecoverPrefix(d: Disk, L: Layout, k: nat)
    requires DiskOk(d, L) && k <= Count(d, L)
    ensures var e := Apply(d, RecoverWrites(d, L)[..k]);
            var lh := Header(d[L.start], L, |d|);
            && (forall b | 0 <= b < |d| && b !in lh[..k] :: e[b] == d[b])
            && (forall b | b in lh[..k] :: L.Home(b))
    decreases k
  {
    var ws := RecoverWrites(d, L);
    var lh := Header(d[L.start], L, |d|);
    if k > 0 {
      RecoverPrefix(d, L, k - 1);
      ApplyNext(d, ws, k - 1);
      assert lh[..k] == lh[..k - 1] + [lh[k - 1]];
      assert ws[k - 1] == Write(lh[k - 1], d[L.Slot(k - 1)]);
    }
  }

  /** d1 and e1 agree on the blocks done, and wherever d and e do. */
  ghost predicate Agree(d: Disk, e: Disk, d1: Disk, e1: Disk, done: seq<nat>) {
    |d| == |e| == |d1| == |e1| && forall b | 0 <= b < |d| && (b in done || d[b] == e[b]) :: d1[b] == e1[b]
  }

  lemma AgreeNext(d: Disk, e: Disk, d1: Disk, e1: Disk, done: seq<nat>, w: Write, d2: Disk, e2: Disk, done': seq<nat>)
    requires Agree(d, e, d1, e1, done) && w.bno < |d| && done' == done + [w.bno]
    requires d2 == d1[w.bno := w.data] && e2 == e1[w.bno := w.data]
    ensures Agree(d, e, d2, e2, done')
  {
    forall b | 0 <= b < |d| && (b in done' || d[b] == e[b])
      ensures d2[b] == e2[b]
    {
      assert b in done' ==> b in done || b == w.bno;
    }
  }

  /** The same writes make two disks agree on the blocks written. */
  lemma {:induction false} AgreeAll(d: Disk, e: Disk, ws: seq<Write>, vs: seq<Write>, k: nat)
    returns (d1: Disk, e1: Disk, done: seq<nat>)
    requires |e| == |d| && k <= |ws| && k <= |vs| && Fits(|d|, ws) && Fits(|d|, vs)
    requires forall j | 0 <= j < k :: vs[j] == ws[j]
    ensures Reached(d, ws, k, d1) && Reached(e, vs, k, e1) && Agree(d, e, d1, e1, done)
    ensures |done| == k && forall j | 0 <= j < k :: done[j] == ws[j].bno
    decreases k
  {
    if k == 0 {
      ReachedStart(d, ws);
      ReachedStart(e, vs);
      d1, e1, done := d, e, [];
    } else {
      var d0, e0, done0 := AgreeAll(d, e, ws, vs, k - 1);
      var w := ws[k - 1];
      d1, e1, done := d0[w.bno := w.data], e0[w.bno := w.data], done0 + [w.bno];
      AgreeNext(d, e, d0, e0, done0, w, d1, e1, done);
      ReachedNext(d, ws, k - 1, d0, w, k, d1);
      ReachedNext(e, vs, k - 1, e0, w, k, e1);
    }
  }

  lemma SameWrites(d: Disk, e: Disk, L: Layout, j: nat)
    requires DiskOk(d, L) && |e| == |d| && j < Count(d, L)
    requires forall b | 0 <= b < |d| && !L.Home(b) :: e[b] == d[b]
    ensures DiskOk(e, L) && Count(e, L) == Count(d, L)
    ensures RecoverWrites(e, L)[j] == RecoverWrites(d, L)[j]
    ensures RecoverWrites(d, L)[j].bno == Header(d[L.start], L, |d|)[j]
  {
    assert !L.Home(L.start) && !L.Home(L.Slot(j));
  }

  /** Two disks with the same header and slots are overwritten alike, block by block. */
  lemma InstallAgree(d: Disk, e: Disk, L: Layout, k: nat) returns (d1: Disk, e1: Disk, done: seq<nat>)
    requires DiskOk(d, L) && |e| == |d| && k <= Count(d, L)
    requires forall b | 0 <= b < |d| && !L.Home(b) :: e[b] == d[b]
    ensures DiskOk(e, L) && Count(e, L) == Count(d, L) && done == Header(d[L.start], L, |d|)[..k]
    ensures Reached(d, RecoverWrites(d, L), k, d1) && Reached(e, RecoverWrites(e, L), k, e1)
    ensures Agree(d, e, d1, e1, done)
  {
    assert !L.Home(L.start);
    var ws, vs, lh := RecoverWrites(d, L), RecoverWrites(e, L), Header(d[L.start], L, |d|);
    forall j | 0 <= j < k
      ensures vs[j] == ws[j] && ws[j].bno == lh[j]
    {
      SameWrites(d, e, L, j);
    }
    d1, e1, done := AgreeAll(d, e, ws, vs, k);
  }

  lemma RecoverLast(d: Disk, L: Layout)
    requires DiskOk(d, L)
    ensures var n := Count(d, L);
            Recover(d, L) == Apply(d, RecoverWrites(d, L)[..n])[L.start := PutHeader(d[L.start], [])]
  {
    var n := Count(d, L);
    var ws := RecoverWrites(d, L);
    ApplyNext(d, ws, n);
    assert ws[..n + 1] == ws;
  }

  /** A disk with an empty log recovers to itself, but for the header's unused words. */
  lemma RecoverClean(d: Disk, L: Layout)
    requires Clean(d, L)
    ensures DiskOk(d, L) && Recover(d, L) == d[L.start := PutHeader(d[L.start], [])]
  {
    RecoverLast(d, L);
    assert RecoverWrites(d, L)[..0] == [];
  }

  /** Disks that agree outside the listed home blocks recover to the same disk. */
  lemma RecoverAgree(d: Disk, e: Disk, L: Layout)
    requires DiskOk(d, L) && |e| == |d|
    requires forall b | 0 <= b < |d| && b !in Header(d[L.start], L, |d|) :: e[b] == d[b]
    ensures DiskOk(e, L) && Recover(e, L) == Recover(d, L)
  {
    var n := Count(d, L);
    var lh := Header(d[L.start], L, |d|);
    assert lh[..n] == lh;
    var d1, e1, done := InstallAgree(d, e, L, n);
    assert e1 == d1;
    assert Open(0);
    RecoverLast(d, L);
    RecoverLast(e, L);
  }

  /** A completed recovery leaves an empty log, and recovering again writes nothing new. */
  lemma RecoverTwice(d: Disk, L: Layout)
    requires DiskOk(d, L)
    ensures Clean(Recover(d, L), L) && DiskOk(Recover(d, L), L)
    ensures Recover(Recover(d, L), L) == Recover(d, L)
  {
    RecoverLast(d, L);
    var e := Recover(d, L);
    assert e[L.start] == PutHeader(d[L.start], []);
    RecoverLast(e, L);
    assert RecoverWrites(e, L)[..0] == [];
    assert PutHeader(e[L.start], []) == e[L.start];
  }

  // ---- Main results

  /** A recovery cut short anywhere leaves a disk that still recovers to the same disk. */
  lemma RecoveryRestartable(d: Disk, L: Layout, k: nat)
    requires DiskOk(d, L) && k <= |RecoverWrites(d, L)|
    ensures var e := Apply(d, RecoverWrites(d, L)[..k]);
            DiskOk(e, L) && Recover(e, L) == Recover(d, L)
  {
    var ws := RecoverWrites(d, L);
    if k < |ws| {
      RecoverPrefix(d, L, k);
      RecoverAgree(d, Apply(d, ws[..k]), L);
    } else {
      assert ws[..k] == ws;
      RecoverTwice(d, L);
    }
  }

  /** How many listed blocks are home after k of the commit's 2n + 2 writes. */
  function Installed(n: nat, k: nat): (m: nat)
    ensures m <= n
  {
    if k <= n then 0 else if k - n - 1 < n then k - n - 1 else n
  }

  ghost predicate HomesAt(d: Disk, L: Layout, done: seq<nat>, img: Disk, e: Disk)
    requires |img| == |d| == |e|
  {
    forall b | 0 <= b < |d| && L.Home(b) :: e[b] == if b in done then img[b] else d[b]
  }

  ghost predicate CommitHeader(d: Disk, L: Layout, lh: seq<nat>, k: nat, e: Disk)
    requires L.Fits(d) && L.Loggable(lh, |d|) && |e| == |d|
  {
    e[L.start] == if k <= |lh| then d[L.start]
                  else if k <= 2 * |lh| + 1 then PutHeader(d[L.start], lh)
                  else PutHeader(PutHeader(d[L.start], lh), [])
  }

  /** The disk after a commit has been cut after k of its 2n + 2 writes. */
  ghost predicate CommitAt(d: Disk, L: Layout, lh: seq<nat>, img: Disk, k: nat, e: Disk)
    requires L.Fits(d) && L.Loggable(lh, |d|) && |img| == |d|
  {
    && |e| == |d|
    && CommitHeader(d, L, lh, k, e) && (forall j | 0 <= j < |lh| && j < k :: e[L.Slot(j)] == img[lh[j]])
    && HomesAt(d, L, lh[..Installed(|lh|, k)], img, e)
  }

  lemma HomesStep(d: Disk, L: Layout, lh: seq<nat>, img: Disk, m: nat, e: Disk)
    requires L.Loggable(lh, |d|) && |img| == |d| == |e| && m < |lh|
    requires HomesAt(d, L, lh[..m], img, e)
    ensures HomesAt(d, L, lh[..m + 1], img, e[lh[m] := img[lh[m]]])
  {
    assert lh[..m + 1] == lh[..m] + [lh[m]];
  }

  lemma CommitStep(d: Disk, L: Layout, lh: seq<nat>, img: Disk, k: nat, e: Disk, w: Write, k': nat, e': Disk)
    requires L.Fits(d) && L.Loggable(lh, |d|) && |img| == |d|
    requires k < 2 * |lh| + 2 && CommitAt(d, L, lh, img, k, e) && |e| == |d|
    requires w == CommitWrites(d, L, lh, img)[k] && k' == k + 1 && w.bno < |e| && e' == e[w.bno := w.data]
    ensures CommitAt(d, L, lh, img, k', e')
  {
    var n := |lh|;
    if n < k <= 2 * n {
      HomesStep(d, L, lh, img, k - n - 1, e);
    }
  }

  lemma {:induction false} CommitPrefix(d: Disk, L: Layout, lh: seq<nat>, img: Disk, k: nat) returns (e: Disk)
    requires L.Fits(d) && L.Loggable(lh, |d|) && |img| == |d|
    requires k <= 2 * |lh| + 2
    ensures Reached(d, CommitWrites(d, L, lh, img), k, e) && CommitAt(d, L, lh, img, k, e)
    decreases k
  {
    var ws := CommitWrites(d, L, lh, img);
    if k == 0 {
      ReachedStart(d, ws);
      e := d;
    } else {
      var e0 := CommitPrefix(d, L, lh, img, k - 1);
      var w := ws[k - 1];
      e := e0[w.bno := w.data];
      CommitStep(d, L, lh, img, k - 1, e0, w, k, e);
      ReachedNext(d, ws, k - 1, e0, w, k, e);
    }
  }

  /** With the slots holding `img`, installing the first k listed blocks makes them `img`. */
  lemma {:induction false} InstallFromSlots(e: Disk, L: Layout, lh: seq<nat>, img: Disk, k: nat, b: nat)
    requires DiskOk(e, L) && Header(e[L.start], L, |e|) == lh && |img| == |e| && k <= |lh|
    requires forall j | 0 <= j < |lh| :: e[L.Slot(j)] == img[lh[j]]
    requires b < |e|
    ensures Apply(e, RecoverWrites(e, L)[..k])[b] == if b in lh[..k] then img[b] else e[b]
    decreases k
  {
    if k > 0 {
      InstallFromSlots(e, L, lh, img, k - 1, b);
      ApplyNext(e, RecoverWrites(e, L), k - 1);
      assert lh[..k] == lh[..k - 1] + [lh[k - 1]];
      assert RecoverWrites(e, L)[k - 1] == Write(lh[k - 1], img[lh[k - 1]]);
    }
  }

  lemma CrashBeforeHeader(d: Disk, L: Layout, lh: seq<nat>, img: Disk, k: nat, e: Disk)
    requires Clean(d, L) && L.Loggable(lh, |d|) && |img| == |d|
    requires k <= |lh| && CommitAt(d, L, lh, img, k, e)
    ensures DiskOk(e, L) && SameHome(d, Recover(e, L), L)
  {
    RecoverLast(e, L);
    assert RecoverWrites(e, L)[..0] == [];
  }

  lemma CrashDuringInstall(d: Disk, L: Layout, lh: seq<nat>, img: Disk, k: nat, e: Disk)
    requires Clean(d, L) && L.Loggable(lh, |d|) && |img| == |d|
    requires |lh| < k <= 2 * |lh| + 1 && CommitAt(d, L, lh, img, k, e)
    ensures DiskOk(e, L) && IsPost(d, L, lh, img, Recover(e, L))
  {
    PutThenGet(d[L.start], lh, L, |d|);
    RecoverLast(e, L);
    forall b: nat | b < |d| && L.Home(b)
      ensures Recover(e, L)[b] == if b in lh then img[b] else d[b]
    {
      InstallFromSlots(e, L, lh, img, |lh|, b);
      assert lh[..|lh|] == lh;
    }
  }

  lemma CrashAfterClear(d: Disk, L: Layout, lh: seq<nat>, img: Disk, e: Disk)
    requires Clean(d, L) && L.Loggable(lh, |d|) && |img| == |d|
    requires CommitAt(d, L, lh, img, 2 * |lh| + 2, e)
    ensures Clean(e, L) && DiskOk(e, L) && IsPost(d, L, lh, img, Recover(e, L))
  {
    RecoverLast(e, L);
    assert RecoverWrites(e, L)[..0] == [];
    assert lh[..|lh|] == lh;
  }

  /** Crash atomicity: a commit cut after any k writes recovers to all of the
      transaction when the header write is among them, and to none of it otherwise. */
  lemma CrashAtomicity(d: Disk, L: Layout, lh: seq<nat>, img: Disk, k: nat)
    requires Clean(d, L) && L.Loggable(lh, |d|) && |img| == |d|
    requires k <= 2 * |lh| + 2
    ensures var e := Apply(d, CommitWrites(d, L, lh, img)[..k]);
            && DiskOk(e, L)
            && (k <= |lh| ==> SameHome(d, Recover(e, L), L))
            && (k > |lh| ==> IsPost(d, L, lh, img, Recover(e, L)))
  {
    var e := CommitPrefix(d, L, lh, img, k);
    assert Open(0);
    if k <= |lh| {
      CrashBeforeHeader(d, L, lh, img, k, e);
    } else if k <= 2 * |lh| + 1 {
      CrashDuringInstall(d, L, lh, img, k, e);
    } else {
      CrashAfterClear(d, L, lh, img, e);
    }
  }

  /** Any number of recoveries, the i-th cut after cuts[i] writes (or run to its end). */
  ghost function CutRecoveries(d: Disk, L: Layout, cuts: seq<nat>): (e: Disk)
    requires DiskOk(d, L)
    decreases |cuts|
  {
    if cuts == [] then d
    else
      var ws := RecoverWrites(d, L);
      var k := if cuts[0] < |ws| then cuts[0] else |ws|;
      var e := Apply(d, ws[..k]);
      RecoveryRestartable(d, L, k);
      CutRecoveries(e, L, cuts[1..])
  }

  lemma {:induction false} CutRecoveriesHarmless(d: Disk, L: Layout, cuts: seq<nat>)
    requires DiskOk(d, L)
    ensures DiskOk(CutRecoveries(d, L, cuts), L)
    ensures Recover(CutRecoveries(d, L, cuts), L) == Recover(d, L)
    decreases |cuts|
  {
    if cuts != [] {
      var ws := RecoverWrites(d, L);
      var k := if cuts[0] < |ws| then cuts[0] else |ws|;
      RecoveryRestartable(d, L, k);
      CutRecoveriesHarmless(Apply(d, ws[..k]), L, cuts[1..]);
    }
  }

  /** A commit cut anywhere, then any number of recoveries each cut anywhere, then one that
      completes: the home blocks are all before or all after the transaction. */
  lemma CommitCrashRecover(d: Disk, L: Layout, lh: seq<nat>, img: Disk, k: nat, cuts: seq<nat>)
    requires Clean(d, L) && L.Loggable(lh, |d|) && |img| == |d|
    requires k <= 2 * |lh| + 2
    ensures var e := Apply(d, CommitWrites(d, L, lh, img)[..k]);
            && DiskOk(e, L)
            && DiskOk(CutRecoveries(e, L, cuts), L)
            && var r := Recover(CutRecoveries(e, L, cuts), L);
               && (if k <= |lh| then SameHome(d, r, L) else IsPost(d, L, lh, img, r))
               && DiskOk(r, L) && Recover(r, L) == r
  {
    CrashAtomicity(d, L, lh, img, k);
    var e := Apply(d, CommitWrites(d, L, lh, img)[..k]);
    CutRecoveriesHarmless(e, L, cuts);
    RecoverTwice(e, L);
  }
}
