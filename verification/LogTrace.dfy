/** What write_log, install_trans and commit do to the blocks' contents, and the writes they make. */
module LogTrace {
  import opened Lists
  import opened Blocks
  import opened RedoLog

  /** install_trans's first k writes, and the image they leave. */
  ghost function HomeWrites(L: Layout, lh: seq<nat>, was: Disk, k: nat): (ws: seq<Write>)
    requires L.Loggable(lh, |was|) && L.start + L.size <= |was| && k <= |lh|
    ensures |ws| == k
  {
    if k == 0 then [] else HomeWrites(L, lh, was, k - 1) + [Write(lh[k - 1], was[L.Slot(k - 1)])]
  }

  ghost function HomeImage(L: Layout, lh: seq<nat>, was: Disk, k: nat): (img: Disk)
    requires L.Loggable(lh, |was|) && L.start + L.size <= |was| && k <= |lh|
    ensures |img| == |was|
    ensures forall b | 0 <= b < |was| && !L.Home(b) :: img[b] == was[b]
  {
    if k == 0 then was else HomeImage(L, lh, was, k - 1)[lh[k - 1] := was[L.Slot(k - 1)]]
  }

  ghost predicate HomesWritten(img: Disk, trace: seq<Write>, L: Layout, lh: seq<nat>, was: Disk, t: seq<Write>,
                               k: nat) {
    && L.Loggable(lh, |was|) && L.start + L.size <= |was| && k <= |lh|
    && img == HomeImage(L, lh, was, k)
    && trace == t + HomeWrites(L, lh, was, k)
  }

  lemma HomesWrittenNext(img: Disk, trace: seq<Write>, L: Layout, lh: seq<nat>, was: Disk, t: seq<Write>, k: nat)
    requires HomesWritten(img, trace, L, lh, was, t, k) && k < |lh|
    ensures img[L.Slot(k)] == was[L.Slot(k)]
    ensures HomesWritten(img[lh[k] := img[L.Slot(k)]], trace + [Write(lh[k], img[L.Slot(k)])], L, lh, was, t, k + 1)
  {
    assert !L.Home(L.Slot(k));
    assert (t + HomeWrites(L, lh, was, k)) + [Write(lh[k], was[L.Slot(k)])] == t + HomeWrites(L, lh, was, k + 1);
  }

  lemma {:induction false} HomeWritesAt(L: Layout, lh: seq<nat>, was: Disk, k: nat)
    requires L.Loggable(lh, |was|) && L.start + L.size <= |was| && k <= |lh|
    ensures forall j | 0 <= j < k :: HomeWrites(L, lh, was, k)[j] == Write(lh[j], was[L.Slot(j)])
  {
    if k > 0 {
      HomeWritesAt(L, lh, was, k - 1);
    }
  }

  /** write_log's first k writes. */
  ghost function SlotWrites(L: Layout, lh: seq<nat>, img: Disk, k: nat): (ws: seq<Write>)
    requires L.Loggable(lh, |img|) && k <= |lh|
    ensures |ws| == k
  {
    if k == 0 then [] else SlotWrites(L, lh, img, k - 1) + [Write(L.Slot(k - 1), img[lh[k - 1]])]
  }

  lemma SlotWritesNext(t: seq<Write>, L: Layout, lh: seq<nat>, img: Disk, k: nat)
    requires L.Loggable(lh, |img|) && k < |lh|
    ensures (t + SlotWrites(L, lh, img, k)) + [Write(L.Slot(k), img[lh[k]])] == t + SlotWrites(L, lh, img, k + 1)
  {
  }

  lemma {:induction false} SlotWritesAt(L: Layout, lh: seq<nat>, img: Disk, k: nat)
    requires L.Loggable(lh, |img|) && k <= |lh|
    ensures forall j | 0 <= j < k :: SlotWrites(L, lh, img, k)[j] == Write(L.Slot(j), img[lh[j]])
  {
    if k > 0 {
      SlotWritesAt(L, lh, img, k - 1);
    }
  }

  /** The first k log slots hold the listed blocks' contents in `was`; other blocks are as in `was`. */
  ghost predicate SlotsHold(img: Disk, L: Layout, lh: seq<nat>, was: Disk, k: nat)
    requires L.Loggable(lh, |was|) && k <= |lh|
  {
    && |img| == |was| && L.start + L.size <= |was|
    && (forall j | 0 <= j < k :: img[L.Slot(j)] == was[lh[j]])
    && (forall b | 0 <= b < |was| && (b <= L.start || L.start + k < b) :: img[b] == was[b])
  }

  /** k rounds of write_log have been done since the image was `was` and the trace `t`. */
  ghost predicate LogWritten(img: Disk, trace: seq<Write>, L: Layout, lh: seq<nat>, was: Disk, t: seq<Write>, k: nat) {
    && L.Loggable(lh, |was|) && k <= |lh|
    && SlotsHold(img, L, lh, was, k)
    && trace == t + SlotWrites(L, lh, was, k)
  }

  lemma SlotsHoldStep(img: Disk, L: Layout, lh: seq<nat>, was: Disk, k: nat)
    requires L.Loggable(lh, |was|) && k < |lh| && SlotsHold(img, L, lh, was, k)
    ensures img[lh[k]] == was[lh[k]]
    ensures SlotsHold(img[L.Slot(k) := img[lh[k]]], L, lh, was, k + 1)
  {
  }

  /** Every log slot holds its block's contents in `was`, and home blocks are as in `was`. */
  ghost predicate Committed(img: Disk, L: Layout, lh: seq<nat>, was: Disk) {
    && L.Loggable(lh, |was|) && L.start + L.size <= |was| && SameHome(img, was, L)
    && forall j | 0 <= j < |lh| :: img[L.Slot(j)] == was[lh[j]]
  }

  lemma SlotsCommitted(img: Disk, L: Layout, lh: seq<nat>, was: Disk, h: Block)
    requires L.Loggable(lh, |was|) && SlotsHold(img, L, lh, was, |lh|)
    ensures Committed(img[L.start := h], L, lh, was)
  {
  }

  /** Each listed block's own contents, to its home. */
  ghost function DirectWrites(lh: seq<nat>, img: Disk, k: nat): (ws: seq<Write>)
    requires k <= |lh| && forall j | 0 <= j < |lh| :: lh[j] < |img|
    ensures |ws| == k
  {
    if k == 0 then [] else DirectWrites(lh, img, k - 1) + [Write(lh[k - 1], img[lh[k - 1]])]
  }

  lemma {:induction false} DirectWritesAt(lh: seq<nat>, img: Disk, k: nat)
    requires k <= |lh| && forall j | 0 <= j < |lh| :: lh[j] < |img|
    ensures forall j | 0 <= j < k :: DirectWrites(lh, img, k)[j] == Write(lh[j], img[lh[j]])
  {
    if k > 0 {
      DirectWritesAt(lh, img, k - 1);
    }
  }

  /** The phases' writes, put together, are the redo log's. */
  lemma CommitTrace(t: seq<Write>, d: Disk, L: Layout, lh: seq<nat>, img: Disk)
    requires L.Fits(d) && L.Loggable(lh, |d|) && |img| == |d|
    ensures var h := PutHeader(d[L.start], lh);
            t + SlotWrites(L, lh, img, |lh|) + [Write(L.start, h)]
            + DirectWrites(lh, img, |lh|) + [Write(L.start, PutHeader(h, []))]
            == t + CommitWrites(d, L, lh, img)
  {
    var h := PutHeader(d[L.start], lh);
    SlotWritesAt(L, lh, img, |lh|);
    DirectWritesAt(lh, img, |lh|);
    FourParts(t, SlotWrites(L, lh, img, |lh|), Write(L.start, h), DirectWrites(lh, img, |lh|),
              Write(L.start, PutHeader(h, [])), CommitWrites(d, L, lh, img));
  }

  /** After write_log and the header, installing from the slots writes each block's own contents,
      and leaves every home block's contents as they were. */
  lemma {:induction false} CommitImage(L: Layout, lh: seq<nat>, img0: Disk, img2: Disk, k: nat)
    requires Committed(img2, L, lh, img0) && k <= |lh|
    ensures HomeWrites(L, lh, img2, k) == DirectWrites(lh, img0, k)
    ensures SameHome(HomeImage(L, lh, img2, k), img0, L)
    decreases k
  {
    if k > 0 {
      CommitImage(L, lh, img0, img2, k - 1);
    }
  }
}
