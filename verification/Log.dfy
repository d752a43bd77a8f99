/** The log as the kernel runs it: transactions over the buffer cache. */
module Log {
  import opened Lists
  import opened Blocks
  import opened RedoLog
  import opened BufferCache
  import opened Counters
  import opened LogTrace
  import opened Params
  import LogProtocol

  // ---- Pin accounting

  ghost predicate InCache(bufs: seq<Buf>, b: nat) {
    exists i: nat :: Cached(bufs, b, i)
  }

  ghost function PinOf(x: Buf, w: map<nat, int>): int {
    if x.dev == ROOTDEV && x.blockno in w then w[x.blockno] else 0
  }

  /** w gives the pin balance of each block whose buffer is not at zero; those are all cached. */
  ghost predicate PinsMatch(bufs: seq<Buf>, pins: seq<int>, w: map<nat, int>) {
    && |bufs| == |pins| == NBUF
    && (forall i | 0 <= i < NBUF :: pins[i] == PinOf(bufs[i], w))
    && (forall b | b in w :: w[b] != 0 && 0 <= w[b] + LOGSIZE && w[b] <= 1)
    && (forall b {:trigger InCache(bufs, b)} | b in w :: InCache(bufs, b))
  }

  /** The buffers in S are used once by the log's own code, and all buffers by others as u says. */
  ghost predicate UsesAre(uses: seq<nat>, u: seq<nat>, S: set<nat>) {
    |uses| == |u| && forall i | 0 <= i < |uses| :: uses[i] == u[i] + if i in S then 1 else 0
  }

  /** What other processes hold or wait for are home blocks, none of them with a pin too few. */
  ghost predicate OthersOk(bufs: seq<Buf>, pins: seq<int>, u: seq<nat>, L: Layout) {
    && |bufs| == |pins| == |u| == NBUF
    && forall i | 0 <= i < NBUF && u[i] > 0 ::
         pins[i] >= 0 && u[i] + 2 < U32 && bufs[i].dev == ROOTDEV && L.Home(bufs[i].blockno)
  }

  /** No other process uses a buffer. */
  ghost function Nobody(): (u: seq<nat>)
    ensures |u| == NBUF && forall i | 0 <= i < NBUF :: u[i] == 0
  {
    seq(NBUF, _ => 0)
  }

  /** The pins of a transaction: one for each logged block. */
  ghost function Ones(lh: seq<nat>): map<nat, int> { map b | b in lh :: 1 }

  /** The counts and pins of a cache: S used by the log, u by others, w the pins. */
  ghost predicate Account(bufs: seq<Buf>, uses: seq<nat>, pins: seq<int>, L: Layout, S: set<nat>, u: seq<nat>,
                          w: map<nat, int>) {
    Counted(bufs, uses, pins) && PinsMatch(bufs, pins, w) && UsesAre(uses, u, S) && OthersOk(bufs, pins, u, L)
  }

  lemma RefcntIs(bufs: seq<Buf>, uses: seq<nat>, pins: seq<int>, L: Layout, S: set<nat>, u: seq<nat>, w: map<nat, int>,
                 i: nat)
    requires Account(bufs, uses, pins, L, S, u, w) && i < NBUF
    ensures bufs[i].refcnt == 0 <==> uses[i] + pins[i] == 0
    ensures uses[i] + pins[i] >= 0 ==> bufs[i].refcnt == uses[i] + pins[i]
  {
  }

  /** While no buffer that the log's code uses has lost more pins than it had, bget can only recycle
      unused buffers. */
  lemma HeldIsSane(bufs: seq<Buf>, uses: seq<nat>, pins: seq<int>, L: Layout, S: set<nat>, u: seq<nat>,
                   w: map<nat, int>)
    requires Account(bufs, uses, pins, L, S, u, w)
    requires forall i | 0 <= i < NBUF && i in S :: pins[i] >= 0
    ensures Sane(bufs, uses, pins)
  {
    forall i | 0 <= i < NBUF && bufs[i].refcnt == 0
      ensures uses[i] == 0 && pins[i] == 0
    {
      RefcntIs(bufs, uses, pins, L, S, u, w, i);
    }
  }

  lemma HitsCached(bufs: seq<Buf>, b: nat)
    requires InCache(bufs, b)
    ensures !Absent(bufs, ROOTDEV, b) && !NoBuffer(bufs, ROOTDEV, b)
  {
    var i: nat :| Cached(bufs, b, i);
    assert bufs[i].Is(ROOTDEV, b);
  }

  lemma TakeKeepsPins(bufs: seq<Buf>, bufs': seq<Buf>, pins: seq<int>, w: map<nat, int>, i: nat, b: nat)
    requires PinsMatch(bufs, pins, w) && i < NBUF && |bufs'| == NBUF
    requires bufs' == bufs[i := bufs'[i]] && bufs'[i].Is(ROOTDEV, b) && bufs'[i].valid
    requires bufs[i].Is(ROOTDEV, b) || (b !in w && pins[i] == 0)
    ensures PinsMatch(bufs', pins, w)
  {
    forall c | c in w
      ensures InCache(bufs', c)
    {
      assert InCache(bufs, c);
      var j: nat :| Cached(bufs, c, j);
      assert Cached(bufs', c, j);
    }
  }

  lemma TakenNotHeld(bufs: seq<Buf>, uses: seq<nat>, pins: seq<int>, L: Layout, S: set<nat>, u: seq<nat>,
                     w: map<nat, int>,
                     x: nat, b: nat)
    requires Account(bufs, uses, pins, L, S, u, w) && x < NBUF && Sane(bufs, uses, pins)
    requires forall i | 0 <= i < NBUF && bufs[i].Is(ROOTDEV, b) :: i !in S
    requires bufs[x].Is(ROOTDEV, b) || (bufs[x].refcnt == 0 && Absent(bufs, ROOTDEV, b))
    ensures x !in S && (bufs[x].Is(ROOTDEV, b) || (b !in w && pins[x] == 0 && u[x] == 0))
  {
    if b in w {
      HitsCached(bufs, b);
    }
  }

  lemma DropOk(bufs: seq<Buf>, uses: seq<nat>, pins: seq<int>, L: Layout, S: set<nat>, u: seq<nat>, w: map<nat, int>,
               x: nat)
    requires Account(bufs, uses, pins, L, S, u, w) && x < NBUF && x in S && bufs[x].dev == ROOTDEV && bufs[x].valid
    ensures var x' := bufs[x].(refcnt := Dec(bufs[x].refcnt), locked := false);
            && uses[x] >= 1
            && PinsMatch(bufs[x := x'], pins, w) && OthersOk(bufs[x := x'], pins, u, L)
            && UsesAre(uses[x := uses[x] - 1], u, S - {x})
  {
    var x' := bufs[x].(refcnt := Dec(bufs[x].refcnt), locked := false);
    TakeKeepsPins(bufs, bufs[x := x'], pins, w, x, bufs[x].blockno);
  }

  /** bpin or bunpin of a cached block. */
  lemma PinChange(bufs: seq<Buf>, pins: seq<int>, w: map<nat, int>, w': map<nat, int>, i: nat, r: nat, d: int)
    requires PinsMatch(bufs, pins, w) && UniqueKeys(bufs) && i < NBUF && Cached(bufs, bufs[i].blockno, i)
    requires var b := bufs[i].blockno;
             && (forall c | c in w' :: w'[c] != 0 && 0 <= w'[c] + LOGSIZE && w'[c] <= 1)
             && (forall c | c != b :: (c in w <==> c in w') && (c in w ==> w'[c] == w[c]))
             && (if b in w' then w'[b] else 0) == (if b in w then w[b] else 0) + d
    ensures PinsMatch(bufs[i := bufs[i].(refcnt := r)], pins[i := pins[i] + d], w')
  {
    var bufs' := bufs[i := bufs[i].(refcnt := r)];
    forall j | 0 <= j < NBUF && j != i
      ensures bufs[j].dev == ROOTDEV ==> bufs[j].blockno != bufs[i].blockno
    {
      assert !SameKey(bufs, i, j);
    }
    forall c | c in w'
      ensures InCache(bufs', c)
    {
      if c != bufs[i].blockno {
        assert InCache(bufs, c);
        var j: nat :| Cached(bufs, c, j);
        assert Cached(bufs', c, j);
      } else {
        assert Cached(bufs', c, i);
      }
    }
  }

  // ---- Free buffers

  ghost predicate HasFree(bufs: seq<Buf>) {
    exists i :: 0 <= i < |bufs| && bufs[i].refcnt == 0
  }

  /** The buffers of the blocks in W. */
  ghost function BuffersOf(bufs: seq<Buf>, W: set<nat>): set<nat> {
    set i: nat | i < |bufs| && bufs[i].dev == ROOTDEV && bufs[i].blockno in W
  }

  /** Distinct cached blocks have as many buffers. */
  lemma {:induction false} OneEach(bufs: seq<Buf>, W: set<nat>)
    requires UniqueKeys(bufs) && forall b {:trigger InCache(bufs, b)} | b in W :: InCache(bufs, b)
    ensures |BuffersOf(bufs, W)| == |W|
    decreases W
  {
    if b :| b in W {
      OneEach(bufs, W - {b});
      assert InCache(bufs, b);
      var i: nat :| Cached(bufs, b, i);
      forall j | j in BuffersOf(bufs, W) && j != i
        ensures j in BuffersOf(bufs, W - {b})
      {
        assert !SameKey(bufs, i, j);
      }
      assert BuffersOf(bufs, W) == BuffersOf(bufs, W - {b}) + {i};
    } else {
      assert BuffersOf(bufs, W) == {};
    }
  }

  /** Buffers that are used but not pinned. */
  ghost function Busy(bufs: seq<Buf>, uses: seq<nat>, w: map<nat, int>): set<nat>
    requires |bufs| == |uses|
  {
    set i: nat | i < |bufs| && uses[i] > 0 && i !in BuffersOf(bufs, w.Keys)
  }

  lemma InUse(bufs: seq<Buf>, uses: seq<nat>, pins: seq<int>, L: Layout, S: set<nat>, u: seq<nat>, w: map<nat, int>,
              i: nat)
    requires Account(bufs, uses, pins, L, S, u, w) && i < NBUF && (i in S ==> pins[i] >= 0)
    ensures bufs[i].refcnt == 0 <==> i !in BuffersOf(bufs, w.Keys) && i !in Busy(bufs, uses, w)
  {
    RefcntIs(bufs, uses, pins, L, S, u, w, i);
    assert i in BuffersOf(bufs, w.Keys) <==> PinOf(bufs[i], w) != 0;
  }

  lemma CountFree(bufs: seq<Buf>, T: set<nat>)
    requires |bufs| == NBUF && T <= Below(NBUF) && forall i: nat | i < NBUF :: bufs[i].refcnt == 0 <==> i !in T
    ensures HasFree(bufs) <==> |T| < NBUF
  {
    SubsetSize(T, Below(NBUF));
    if i :| 0 <= i < |bufs| && bufs[i].refcnt == 0 {
      assert i in Below(NBUF) && i !in T;
    } else {
      assert T == Below(NBUF);
    }
  }

  /** bget has a buffer to recycle exactly if the pinned blocks and the other buffers in use are
      fewer than NBUF. */
  lemma FreeLeft(bufs: seq<Buf>, uses: seq<nat>, pins: seq<int>, L: Layout, S: set<nat>, u: seq<nat>, w: map<nat, int>)
    requires UniqueKeys(bufs) && Account(bufs, uses, pins, L, S, u, w)
    requires forall i | 0 <= i < NBUF && i in S :: pins[i] >= 0
    ensures HasFree(bufs) <==> |w| + |Busy(bufs, uses, w)| < NBUF
  {
    var P, B := BuffersOf(bufs, w.Keys), Busy(bufs, uses, w);
    forall i: nat | i < NBUF
      ensures bufs[i].refcnt == 0 <==> i !in P + B
    {
      InUse(bufs, uses, pins, L, S, u, w, i);
    }
    CountFree(bufs, P + B);
    OneEach(bufs, w.Keys);
    assert P !! B && |w.Keys| == |w|;
  }

  /** With nobody else about, the buffers in use are those of the log's own code. */
  lemma FreeAlone(bufs: seq<Buf>, uses: seq<nat>, pins: seq<int>, L: Layout, S: set<nat>, w: map<nat, int>)
    requires UniqueKeys(bufs) && Account(bufs, uses, pins, L, S, Nobody(), w)
    requires S <= Below(NBUF) && S !! BuffersOf(bufs, w.Keys)
    ensures HasFree(bufs) <==> |w| + |S| < NBUF
  {
    FreeLeft(bufs, uses, pins, L, S, Nobody(), w);
    assert Busy(bufs, uses, w) == S;
  }

  /** Without a free buffer the log's blocks are not cached either. */
  lemma NoneFree(bufs: seq<Buf>, uses: seq<nat>, pins: seq<int>, L: Layout, u: seq<nat>, w: map<nat, int>, b: nat)
    requires Account(bufs, uses, pins, L, {}, u, w) && !L.Home(b) && b !in w
    ensures NoBuffer(bufs, ROOTDEV, b) <==> !HasFree(bufs)
  {
    if i: nat :| i < NBUF && bufs[i].Is(ROOTDEV, b) {
      RefcntIs(bufs, uses, pins, L, {}, u, w, i);
      assert bufs[i].refcnt == 0;
    }
  }

  /** A block of the log that nobody holds reads as it is on disk. */
  lemma UnpinnedIsDisk(bufs: seq<Buf>, uses: seq<nat>, pins: seq<int>, L: Layout, u: seq<nat>, w: map<nat, int>,
                       disk: Disk, img: Disk, b: nat)
    requires UniqueKeys(bufs) && Account(bufs, uses, pins, L, {}, u, w) && Synced(bufs, uses, pins, disk)
    requires Shows(bufs, disk, img) && b < |disk| && b !in w && !L.Home(b)
    ensures img[b] == disk[b]
  {
    if i: nat :| Cached(bufs, b, i) {
      ContentAt(bufs, disk, b, i);
      assert bufs[i].Is(ROOTDEV, b);
    }
    assert img[b] == Content(bufs, disk, b);
  }

  // ---- Pins that go one by one

  /** w' is w with one pin fewer on b. */
  ghost predicate IsUnpin(w: map<nat, int>, w': map<nat, int>, b: nat) {
    && (forall c | c in w' :: w'[c] != 0 && 0 <= w'[c] + LOGSIZE && w'[c] <= 1)
    && (forall c | c != b :: (c in w <==> c in w') && (c in w ==> w'[c] == w[c]))
    && (if b in w' then w'[b] else 0) == (if b in w then w[b] else 0) - 1
  }

  /** Successive pin maps, one pin fewer on the next listed block each time; log slots never pinned. */
  ghost predicate UnpinChain(ws: seq<map<nat, int>>, lh: seq<nat>, L: Layout) {
    && |ws| == |lh| + 1
    && forall k | 0 <= k < |lh| :: IsUnpin(ws[k], ws[k + 1], lh[k]) && L.Slot(k) !in ws[k]
  }

  ghost predicate AllPinned(ws: seq<map<nat, int>>, lh: seq<nat>) {
    |ws| == |lh| + 1 && forall k | 0 <= k < |lh| :: lh[k] in ws[k] && ws[k][lh[k]] == 1
  }

  /** The pins left before each round of a commit's install_trans. */
  ghost function PinsOf(lh: seq<nat>): seq<map<nat, int>> {
    seq(|lh| + 1, k requires 0 <= k <= |lh| => Ones(lh[k..]))
  }

  /** Logging one more block keeps the pins those of the transaction. */
  lemma OnesAppend(lh: seq<nat>, b: nat)
    requires Distinct(lh) && b !in lh
    ensures Distinct(lh + [b]) && Ones(lh + [b]) == Ones(lh)[b := 1]
  {
  }

  lemma OnesDrop(lh: seq<nat>, k: nat)
    requires Distinct(lh) && k < |lh|
    ensures IsUnpin(Ones(lh[k..]), Ones(lh[k + 1..]), lh[k])
  {
    var rest := lh[k + 1..];
    assert lh[k..] == [lh[k]] + rest;
    assert lh[k] !in rest;
    assert forall c :: c in lh[k..] <==> c == lh[k] || c in rest;
  }

  lemma PinsChain(lh: seq<nat>, L: Layout)
    requires Distinct(lh) && |lh| < L.size && forall k | 0 <= k < |lh| :: L.Home(lh[k])
    ensures UnpinChain(PinsOf(lh), lh, L) && AllPinned(PinsOf(lh), lh)
    ensures PinsOf(lh)[0] == Ones(lh) && PinsOf(lh)[|lh|] == map[]
  {
    assert lh[0..] == lh;
    forall k: nat | k < |lh|
      ensures IsUnpin(PinsOf(lh)[k], PinsOf(lh)[k + 1], lh[k]) && L.Slot(k) !in PinsOf(lh)[k] && lh[k] in PinsOf(lh)[k]
      ensures PinsOf(lh)[k][lh[k]] == 1
    {
      OnesDrop(lh, k);
      assert lh[k] == lh[k..][0];
      assert !L.Home(L.Slot(k));
    }
  }

  /** What commit starts from: its pins in order, none of them on the log's own blocks. */
  lemma StartCommit(lh: seq<nat>, L: Layout) returns (ws: seq<map<nat, int>>)
    requires Distinct(lh) && |lh| < L.size && forall k | 0 <= k < |lh| :: L.Home(lh[k])
    ensures UnpinChain(ws, lh, L) && AllPinned(ws, lh) && ws[0] == Ones(lh) && ws[|lh|] == map[] && L.start !in ws[0]
    ensures forall k | 0 <= k < |lh| :: lh[k] in ws[0] && ws[0][lh[k]] == 1 && L.Slot(k) !in ws[0]
  {
    ws := PinsOf(lh);
    PinsChain(lh, L);
    assert forall b | b in lh :: L.Home(b);
    assert !L.Home(L.start) && forall k | 0 <= k < |lh| :: lh[k] in lh && !L.Home(L.Slot(k));
  }

  /** The pin balances a recovery of the blocks lh leaves behind. */
  ghost function Fallen(lh: seq<nat>): map<nat, int> {
    map b | b in lh :: 0 - multiset(lh)[b]
  }

  lemma {:induction false} CountBound(s: seq<nat>)
    ensures forall b :: multiset(s)[b] <= |s|
  {
    if s != [] {
      var m := |s| - 1;
      CountBound(s[..m]);
      assert s == s[..m] + [s[m]];
    }
  }

  lemma FallenNext(lh: seq<nat>, k: nat)
    requires k < |lh| <= LOGSIZE
    ensures IsUnpin(Fallen(lh[..k]), Fallen(lh[..k + 1]), lh[k])
  {
    assert lh[..k + 1] == lh[..k] + [lh[k]];
    CountBound(lh[..k + 1]);
  }

  lemma FallenChain(lh: seq<nat>, L: Layout) returns (ws: seq<map<nat, int>>)
    requires |lh| <= LOGSIZE && |lh| < L.size && forall k | 0 <= k < |lh| :: L.Home(lh[k])
    ensures UnpinChain(ws, lh, L) && ws[0] == map[] && ws[|lh|] == Fallen(lh) && L.start !in ws[|lh|]
    ensures forall k | 0 <= k <= |lh| :: ws[k].Keys == Elems(lh[..k])
  {
    ws := seq(|lh| + 1, k requires 0 <= k <= |lh| => Fallen(lh[..k]));
    forall k: nat | k < |lh|
      ensures IsUnpin(ws[k], ws[k + 1], lh[k]) && L.Slot(k) !in ws[k]
    {
      FallenNext(lh, k);
      assert !L.Home(L.Slot(k));
    }
    assert lh[..|lh|] == lh && !L.Home(L.start);
  }

  /** With nothing held or pinned, installing from the image is installing from the disk. */
  lemma RecoverTrace(bufs: seq<Buf>, uses: seq<nat>, pins: seq<int>, u: seq<nat>, disk: Disk, img: Disk, L: Layout,
                     t: seq<Write>)
    requires UniqueKeys(bufs) && Account(bufs, uses, pins, L, {}, u, map[]) && Synced(bufs, uses, pins, disk)
    requires Shows(bufs, disk, img) && DiskOk(disk, L)
    ensures var lh := Header(disk[L.start], L, |disk|);
            t + HomeWrites(L, lh, img, |lh|) + [Write(L.start, PutHeader(disk[L.start], []))]
            == t + RecoverWrites(disk, L)
  {
    var lh := Header(disk[L.start], L, |disk|);
    forall j | 0 <= j < |lh|
      ensures img[L.Slot(j)] == disk[L.Slot(j)]
    {
      assert !L.Home(L.Slot(j));
      UnpinnedIsDisk(bufs, uses, pins, L, u, map[], disk, img, L.Slot(j));
    }
    HomeWritesAt(L, lh, img, |lh|);
    assert HomeWrites(L, lh, img, |lh|) == InstallWrites(disk, L, lh);
  }

  lemma OnesSize(lh: seq<nat>)
    requires Distinct(lh)
    ensures |Ones(lh)| == |lh|
  {
    assert Ones(lh).Keys == Elems(lh);
    DistinctSize(lh);
  }

  /** With nobody else about, the two breads of a round find buffers. */
  ghost predicate BuffersFor(w: map<nat, int>, b: nat) { |w| + (if b in w then 1 else 2) <= NBUF }

  /** The first bread of a round gets a buffer exactly if there is one to recycle. */
  lemma FirstTake(bufs: seq<Buf>, uses: seq<nat>, pins: seq<int>, L: Layout, u: seq<nat>, w: map<nat, int>, b: nat)
    requires UniqueKeys(bufs) && Account(bufs, uses, pins, L, {}, u, w) && !L.Home(b) && b !in w
    ensures NoBuffer(bufs, ROOTDEV, b) <==> !HasFree(bufs)
    ensures u == Nobody() ==> (HasFree(bufs) <==> |w| < NBUF)
  {
    NoneFree(bufs, uses, pins, L, u, w, b);
    if u == Nobody() {
      FreeAlone(bufs, uses, pins, L, {}, w);
    }
  }

  lemma OneMore(bufs: seq<Buf>, uses: seq<nat>, pins: seq<int>, L: Layout, w: map<nat, int>, x: nat, b: nat)
    requires UniqueKeys(bufs) && Account(bufs, uses, pins, L, {x}, Nobody(), w) && x < NBUF
    requires bufs[x].dev == ROOTDEV && bufs[x].blockno !in w && bufs[x].blockno != b && b !in w
    ensures NoBuffer(bufs, ROOTDEV, b) <==> !HasFree(bufs)
  {
    if i: nat :| i < NBUF && bufs[i].Is(ROOTDEV, b) {
      RefcntIs(bufs, uses, pins, L, {x}, Nobody(), w, i);
      assert bufs[i].refcnt == 0;
    }
  }

  /** The second finds its block cached, or needs one more. */
  lemma SecondTake(bufs: seq<Buf>, uses: seq<nat>, pins: seq<int>, L: Layout, u: seq<nat>, w: map<nat, int>, x: nat,
                   b: nat)
    requires UniqueKeys(bufs) && Account(bufs, uses, pins, L, {x}, u, w) && x < NBUF
    requires bufs[x].dev == ROOTDEV && bufs[x].blockno !in w && bufs[x].blockno != b
    ensures b in w ==> !NoBuffer(bufs, ROOTDEV, b)
    ensures u == Nobody() && b !in w ==> (NoBuffer(bufs, ROOTDEV, b) <==> !BuffersFor(w, b))
  {
    if b in w {
      HitsCached(bufs, b);
    } else if u == Nobody() {
      OneMore(bufs, uses, pins, L, w, x, b);
      FreeAlone(bufs, uses, pins, L, {x}, w);
    }
  }

  /** And so do those of the first m rounds. */
  ghost predicate BuffersDo(ws: seq<map<nat, int>>, lh: seq<nat>, m: nat) {
    m <= |lh| < |ws| && forall k | 0 <= k < m :: BuffersFor(ws[k], lh[k])
  }

  /** A recovery finds its buffers exactly if fewer than NBUF different blocks are listed. */
  lemma RecoverBuffers(lh: seq<nat>, ws: seq<map<nat, int>>)
    requires |ws| == |lh| + 1 && |lh| <= LOGSIZE && forall k | 0 <= k <= |lh| :: ws[k].Keys == Elems(lh[..k])
    ensures BuffersDo(ws, lh, |lh|) <==> |Elems(lh)| < NBUF
  {
    forall k | 0 <= k < |lh|
      ensures |Elems(lh)| < NBUF ==> BuffersFor(ws[k], lh[k])
    {
      assert |ws[k]| == |Elems(lh[..k])|;
      assert Elems(lh[..k]) + {lh[k]} <= Elems(lh);
      SubsetSize(Elems(lh[..k]) + {lh[k]}, Elems(lh));
    }
    if |Elems(lh)| >= NBUF {
      var m := |lh| - 1;
      ElemsBound(lh);
      assert lh == lh[..m] + [lh[m]];
      assert Elems(lh) == Elems(lh[..m]) + {lh[m]};
      ElemsBound(lh[..m]);
      assert |ws[m]| == |Elems(lh[..m])|;
      assert !BuffersFor(ws[m], lh[m]);
    }
  }

  class Journal {
    const bc: Cache
    const L: Layout
    /** log.lh.n and log.lh.block. */
    var n: nat
    var block: seq<nat>
    var outstanding: nat
    var committing: bool

    /** initlog before its call of recover_from_log. */
    constructor (c: Cache, l: Layout)
      ensures bc == c && L == l && n == 0 && |block| == LOGSIZE && outstanding == 0 && !committing
    {
      bc, L := c, l;
      n, block, outstanding, committing := 0, seq(LOGSIZE, k => 0), 0, false;
    }

    ghost function Lh(): seq<nat>
      reads this
      requires n <= |block|
    {
      block[..n]
    }

    ghost predicate Valid()
      reads this, bc
    {
      && |block| == LOGSIZE && n <= LOGSIZE
      && bc.Valid() && L.Fits(bc.disk)
      && L.Loggable(Lh(), |bc.disk|)
    }

    /** The log's code uses the buffers in S, other processes those that u says, and pins are as w says. */
    ghost predicate Using(S: set<nat>, u: seq<nat>, w: map<nat, int>)
      reads this, bc
    {
      Valid() && Account(bc.bufs, bc.uses, bc.pins, L, S, u, w)
    }

    /** And no one else has a block of the log or of the transaction locked; some may wait for one. */
    ghost predicate Alone(S: set<nat>, u: seq<nat>, w: map<nat, int>)
      reads this, bc
    {
      && Using(S, u, w)
      && forall i | 0 <= i < NBUF && bc.bufs[i].locked && i !in S && bc.bufs[i].dev == ROOTDEV ::
           bc.bufs[i].blockno !in Lh() && L.Home(bc.bufs[i].blockno)
    }

    /** begin_op's locked region: false means sleep and try again. */
    method BeginOp() returns (started: bool)
      modifies `outstanding
      ensures started <==> !committing && LogProtocol.HasRoom(n, old(outstanding))
      ensures outstanding == if started then old(outstanding) + 1 else old(outstanding)
    {
      if committing {
        started := false;
      } else if n + (outstanding + 1) * MAXOPBLOCKS > LOGSIZE {
        started := false;
      } else {
        outstanding := outstanding + 1;
        started := true;
      }
    }

    /** log_write's scan of the header: the block is recorded, in its old slot or a new one. */
    method Record(b: nat) returns (isNew: bool)
      requires |block| == LOGSIZE && n <= LOGSIZE && (n < LOGSIZE || b in Lh())
      modifies `n, `block
      ensures |block| == LOGSIZE && n <= LOGSIZE && n == old(n) + if isNew then 1 else 0
      ensures isNew <==> b !in old(Lh())
      ensures Lh() == if isNew then old(Lh()) + [b] else old(Lh())
    {
      var j := 0;
      while j < n
        invariant j <= n
        invariant forall k | 0 <= k < j :: block[k] != b
      {
        if block[j] == b {
          break;
        }
        j := j + 1;
      }
      ghost var lh := Lh();
      isNew := j == n;
      assert j < n ==> lh[j] == b;
      block := block[j := b];
      if isNew {
        n := n + 1;
      }
    }

    /** bpin of a held, so far unpinned buffer. */
    method Pin(i: nat, ghost S: set<nat>, ghost u: seq<nat>, ghost w: map<nat, int>)
      requires Using(S, u, w) && i < NBUF && bc.bufs[i].valid && bc.bufs[i].dev == ROOTDEV && bc.bufs[i].blockno !in w
      modifies bc`bufs, bc`pins
      ensures Using(S, u, w[old(bc.bufs)[i].blockno := 1]) && unchanged(bc`disk, bc`trace, bc`img, bc`uses)
    {
      PinChange(bc.bufs, bc.pins, w, w[bc.bufs[i].blockno := 1], i, Inc(bc.bufs[i].refcnt), 1);
      bc.Bpin(i);
    }

    /** log_write, of a held buffer whose block is pinned just when it is already logged; others may
        wait for it, and hold and wait for any other. False is a panic. */
    method LogWrite(i: nat, ghost S: set<nat>, ghost u: seq<nat>, ghost w: map<nat, int>) returns (ok: bool)
      requires Using(S, u, w) && i < NBUF && bc.bufs[i].locked && bc.bufs[i].valid && L.Home(bc.bufs[i].blockno)
      requires bc.bufs[i].blockno in w <==> bc.bufs[i].blockno in Lh()
      modifies `n, `block, bc`bufs, bc`pins
      ensures unchanged(bc`disk, bc`trace, bc`img, bc`uses)
      ensures ok <==> !LogProtocol.TooBig(old(n), L.size) && outstanding >= 1
      ensures !ok ==> unchanged(`n, `block, bc`bufs, bc`pins)
      ensures ok ==> var b := old(bc.bufs)[i].blockno;
                     if b in w then Using(S, u, w) && Lh() == old(Lh())
                     else Using(S, u, w[b := 1]) && Lh() == old(Lh()) + [b]
      ensures ok && w == Ones(old(Lh())) && Distinct(old(Lh())) ==> Using(S, u, Ones(Lh())) && Distinct(Lh())
    {
      if n >= LOGSIZE || n >= L.size - 1 {
        return false;
      }
      if outstanding < 1 {
        return false;
      }
      ghost var lh, b := Lh(), bc.bufs[i].blockno;
      var isNew := Record(bc.bufs[i].blockno);
      if isNew {
        if w == Ones(lh) && Distinct(lh) {
          OnesAppend(lh, b);
        }
        Pin(i, S, u, w);
      }
      ok := true;
    }

    /** bread of a block that no one has locked. False is the panic "bget: no buffers". */
    method Take(b: nat, ghost S: set<nat>, ghost u: seq<nat>, ghost w: map<nat, int>) returns (ok: bool, x: nat)
      requires Using(S, u, w) && b < |bc.disk|
      requires forall i | 0 <= i < NBUF && bc.bufs[i].Is(ROOTDEV, b) :: i !in S && !bc.bufs[i].locked
      requires forall i | 0 <= i < NBUF && i in S :: bc.pins[i] >= 0
      modifies bc`bufs, bc`uses
      ensures bc.Valid() && unchanged(bc`disk, bc`trace, bc`img, bc`pins)
      ensures ok <==> !NoBuffer(old(bc.bufs), ROOTDEV, b)
      ensures ok ==>
        && x < NBUF && x !in S && Using(S + {x}, u, w)
        && bc.bufs == old(bc.bufs)[x := bc.bufs[x]]
        && bc.bufs[x].Is(ROOTDEV, b) && bc.bufs[x].valid && bc.bufs[x].locked
        && bc.bufs[x].data == bc.img[b]
    {
      HeldIsSane(bc.bufs, bc.uses, bc.pins, L, S, u, w);
      var r := bc.Bread(b);
      if r.None? {
        return false, 0;
      }
      x := r.value;
      TakenNotHeld(old(bc.bufs), old(bc.uses), bc.pins, L, S, u, w, x, b);
      TakeKeepsPins(old(bc.bufs), bc.bufs, bc.pins, w, x, b);
      ok := true;
    }

    /** brelse of a held buffer that is pinned or matches the disk. */
    method Drop(x: nat, ghost S: set<nat>, ghost u: seq<nat>, ghost w: map<nat, int>)
      requires Using(S, u, w) && x in S && x < NBUF && bc.bufs[x].locked && bc.bufs[x].valid
      requires bc.pins[x] <= 0 ==> bc.bufs[x].data == bc.disk[bc.bufs[x].blockno]
      modifies bc`bufs, bc`uses, bc`next, bc`prev, bc`order
      ensures Using(S - {x}, u, w) && unchanged(bc`disk, bc`trace, bc`img, bc`pins)
      ensures bc.bufs == old(bc.bufs)[x := bc.bufs[x]]
      ensures bc.bufs[x] == old(bc.bufs)[x].(refcnt := bc.bufs[x].refcnt, locked := false)
    {
      DropOk(bc.bufs, bc.uses, bc.pins, L, S, u, w, x);
      bc.Brelse(x);
    }

    /** memmove into a held buffer. */
    method Fill(x: nat, v: Block, ghost S: set<nat>, ghost u: seq<nat>, ghost w: map<nat, int>)
      requires Using(S, u, w) && x in S && x < NBUF && bc.bufs[x].locked && bc.bufs[x].valid
      modifies bc`bufs, bc`img
      ensures Using(S, u, w) && bc.bufs == old(bc.bufs)[x := old(bc.bufs)[x].(data := v)]
      ensures unchanged(bc`disk, bc`trace, bc`pins)
      ensures bc.img == old(bc.img)[bc.bufs[x].blockno := v]
    {
      bc.SetData(x, v);
      TakeKeepsPins(old(bc.bufs), bc.bufs, bc.pins, w, x, bc.bufs[x].blockno);
    }

    /** bwrite of a held buffer. */
    method Put(x: nat, ghost S: set<nat>, ghost u: seq<nat>, ghost w: map<nat, int>)
      requires Using(S, u, w) && x in S && x < NBUF && bc.bufs[x].locked && bc.bufs[x].valid
      requires bc.bufs[x].blockno == L.start ==> |bc.bufs[x].data.words| == WORDS
      modifies bc`disk, bc`trace
      ensures Using(S, u, w) && unchanged(bc`bufs, bc`img, bc`pins)
      ensures bc.trace == old(bc.trace) + [Write(bc.bufs[x].blockno, bc.bufs[x].data)]
      ensures bc.disk == old(bc.disk)[bc.bufs[x].blockno := bc.bufs[x].data]
    {
      bc.Bwrite(x);
    }

    /** bunpin of a held buffer, of its only pin if others want the buffer too. */
    method Unpin(x: nat, ghost S: set<nat>, ghost u: seq<nat>, ghost w: map<nat, int>, ghost w': map<nat, int>)
      requires Using(S, u, w) && x in S && x < NBUF && bc.bufs[x].dev == ROOTDEV && bc.bufs[x].valid
      requires IsUnpin(w, w', bc.bufs[x].blockno) && (u[x] > 0 ==> bc.pins[x] == 1)
      modifies bc`bufs, bc`pins
      ensures Using(S, u, w') && unchanged(bc`disk, bc`trace, bc`img)
      ensures bc.pins == old(bc.pins)[x := old(bc.pins)[x] - 1]
      ensures bc.bufs == old(bc.bufs)[x := old(bc.bufs)[x].(refcnt := Dec(old(bc.bufs)[x].refcnt))]
    {
      PinChange(bc.bufs, bc.pins, w, w', x, Dec(bc.bufs[x].refcnt), -1);
      bc.Bunpin(x);
    }

    /** The two breads of a write_log or install_trans round: log slot `tail`, then its home block. */
    method TakePair(tail: nat, ghost u: seq<nat>, ghost w: map<nat, int>) returns (ok: bool, x: nat, y: nat)
      requires Alone({}, u, w) && tail < n && L.Slot(tail) !in w
      modifies bc`bufs, bc`uses
      ensures bc.Valid() && unchanged(bc`disk, bc`trace, bc`img, bc`pins)
      ensures ok ==>
        && x < NBUF && y < NBUF && x != y && Alone({x, y}, u, w)
        && bc.bufs[x].Is(ROOTDEV, L.Slot(tail)) && bc.bufs[x].valid && bc.bufs[x].locked
        && bc.bufs[y].Is(ROOTDEV, block[tail]) && bc.bufs[y].valid && bc.bufs[y].locked
        && bc.bufs[x].data == bc.img[L.Slot(tail)] && bc.bufs[y].data == bc.img[block[tail]]
      ensures block[tail] in w ==> (ok <==> HasFree(old(bc.bufs)))
      ensures u == Nobody() ==> (ok <==> BuffersFor(w, block[tail]))
    {
      y := 0;
      assert block[tail] == Lh()[tail] && !L.Home(L.Slot(tail));
      FirstTake(bc.bufs, bc.uses, bc.pins, L, u, w, L.Slot(tail));
      ok, x := Take(L.Slot(tail), {}, u, w);
      if ok {
        SecondTake(bc.bufs, bc.uses, bc.pins, L, u, w, x, block[tail]);
        ok, y := Take(block[tail], {} + {x}, u, w);
        assert {} + {x} + {y} == {x, y};
      }
    }

    /** brelse of both. */
    method DropPair(x: nat, y: nat, ghost u: seq<nat>, ghost w: map<nat, int>)
      requires Alone({x, y}, u, w) && x < NBUF && y < NBUF && x != y
      requires bc.bufs[x].locked && bc.bufs[x].valid && bc.bufs[y].locked && bc.bufs[y].valid
      requires !L.Home(bc.bufs[x].blockno)
      requires bc.pins[x] == 0 && bc.bufs[x].data == bc.disk[bc.bufs[x].blockno]
      requires bc.pins[y] <= 0 ==> bc.bufs[y].data == bc.disk[bc.bufs[y].blockno]
      modifies bc`bufs, bc`uses, bc`next, bc`prev, bc`order
      ensures Alone({}, u, w) && HasFree(bc.bufs) && unchanged(bc`disk, bc`trace, bc`img, bc`pins)
    {
      Drop(y, {x, y}, u, w);
      Drop(x, {x, y} - {y}, u, w);
      assert {x, y} - {y} - {x} == {};
      RefcntIs(bc.bufs, bc.uses, bc.pins, L, {}, u, w, x);
      assert bc.bufs[x].refcnt == 0;
    }

    /** One round of write_log's loop. False is the panic "bget: no buffers". */
    method WriteLogBlock(tail: nat, ghost u: seq<nat>, ghost w: map<nat, int>) returns (ok: bool)
      requires Alone({}, u, w) && tail < n && L.Slot(tail) !in w && block[tail] in w && w[block[tail]] == 1
      modifies bc
      ensures bc.Valid()
      ensures ok <==> HasFree(old(bc.bufs))
      ensures !ok ==> bc.trace == old(bc.trace)
      ensures ok ==> Alone({}, u, w) && HasFree(bc.bufs)
      ensures ok ==> bc.trace == old(bc.trace) + [Write(L.Slot(tail), old(bc.img)[block[tail]])]
      ensures ok ==> bc.img == old(bc.img)[L.Slot(tail) := old(bc.img)[block[tail]]]
      ensures ok ==> bc.disk == old(bc.disk)[L.Slot(tail) := old(bc.img)[block[tail]]]
    {
      var to, from;
      ok, to, from := TakePair(tail, u, w);
      if ok {
        assert block[tail] == Lh()[tail] && !L.Home(L.Slot(tail));
        Fill(to, bc.bufs[from].data, {to, from}, u, w);
        Put(to, {to, from}, u, w);
        DropPair(to, from, u, w);
      }
    }

    /** The same round, as a step from k to k + 1 slots written since `was` and `t`. */
    method WriteLogRound(tail: nat, ghost u: seq<nat>, ghost w: map<nat, int>, ghost was: Disk, ghost t: seq<Write>)
      returns (ok: bool)
      requires Alone({}, u, w) && tail < n && L.Slot(tail) !in w && block[tail] in w && w[block[tail]] == 1
      requires LogWritten(bc.img, bc.trace, L, Lh(), was, t, tail)
      modifies bc
      ensures bc.Valid()
      ensures ok <==> HasFree(old(bc.bufs))
      ensures !ok ==> bc.trace == old(bc.trace)
      ensures ok ==> Alone({}, u, w) && HasFree(bc.bufs) && bc.disk[L.start] == old(bc.disk)[L.start]
      ensures ok ==> LogWritten(bc.img, bc.trace, L, Lh(), was, t, tail + 1)
    {
      SlotsHoldStep(bc.img, L, Lh(), was, tail);
      SlotWritesNext(t, L, Lh(), was, tail);
      ok := WriteLogBlock(tail, u, w);
    }

    /** write_log. With no buffer to recycle it panics at once, on the first log block. */
    method WriteLog(ghost u: seq<nat>, ghost w: map<nat, int>) returns (ok: bool)
      requires Alone({}, u, w) && n > 0
      requires forall k | 0 <= k < n :: block[k] in w && w[block[k]] == 1 && L.Slot(k) !in w
      modifies bc
      ensures bc.Valid()
      ensures ok <==> HasFree(old(bc.bufs))
      ensures !ok ==> bc.trace == old(bc.trace)
      ensures ok ==> Alone({}, u, w) && HasFree(bc.bufs) && bc.disk[L.start] == old(bc.disk)[L.start]
      ensures ok ==> LogWritten(bc.img, bc.trace, L, Lh(), old(bc.img), old(bc.trace), n)
    {
      assert old(bc.trace) + [] == old(bc.trace);
      for tail := 0 to n
        invariant Alone({}, u, w) && bc.disk[L.start] == old(bc.disk)[L.start]
        invariant if HasFree(old(bc.bufs)) then HasFree(bc.bufs) else tail == 0 && bc.bufs == old(bc.bufs)
        invariant LogWritten(bc.img, bc.trace, L, Lh(), old(bc.img), old(bc.trace), tail)
      {
        ok := WriteLogRound(tail, u, w, old(bc.img), old(bc.trace));
        if !ok {
          return false;
        }
      }
      ok := true;
    }

    /** write_head's word loop. */
    method HeaderWords(words: seq<int>) returns (hb: seq<int>)
      requires |words| == WORDS && |block| == LOGSIZE && n <= LOGSIZE
      ensures Block(hb) == PutHeader(Block(words), Lh())
    {
      hb := words[0 := n];
      for i := 0 to n
        invariant hb == [n] + block[..i] + words[1 + i..]
      {
        hb := hb[1 + i := block[i]];
      }
    }

    /** The words, bwrite and brelse of the header's buffer. */
    method UpdateHead(x: nat, ghost u: seq<nat>, ghost w: map<nat, int>)
      requires Alone({x}, u, w) && L.start !in w && x < NBUF && bc.bufs[x].Is(ROOTDEV, L.start)
      requires bc.bufs[x].valid && bc.bufs[x].locked && bc.bufs[x].data == bc.disk[L.start]
      modifies bc
      ensures Alone({}, u, w) && HasFree(bc.bufs)
      ensures var h := PutHeader(old(bc.disk)[L.start], Lh());
              && bc.trace == old(bc.trace) + [Write(L.start, h)]
              && bc.img == old(bc.img)[L.start := h] && bc.disk == old(bc.disk)[L.start := h]
    {
      assert !L.Home(L.start);
      var hb := HeaderWords(bc.bufs[x].data.words);
      Fill(x, Block(hb), {x}, u, w);
      Put(x, {x}, u, w);
      Drop(x, {x}, u, w);
      assert {x} - {x} == {};
      RefcntIs(bc.bufs, bc.uses, bc.pins, L, {}, u, w, x);
      assert bc.bufs[x].refcnt == 0;
    }

    /** write_head: the header block is read, its first n + 1 words replaced, and written. */
    method WriteHead(ghost u: seq<nat>, ghost w: map<nat, int>) returns (ok: bool)
      requires Alone({}, u, w) && L.start !in w
      modifies bc
      ensures bc.Valid()
      ensures ok <==> HasFree(old(bc.bufs))
      ensures ok ==> Alone({}, u, w) && HasFree(bc.bufs)
      ensures ok ==> var h := PutHeader(old(bc.disk)[L.start], Lh());
                     && bc.trace == old(bc.trace) + [Write(L.start, h)]
                     && bc.img == old(bc.img)[L.start := h] && bc.disk == old(bc.disk)[L.start := h]
    {
      assert !L.Home(L.start);
      UnpinnedIsDisk(bc.bufs, bc.uses, bc.pins, L, u, w, bc.disk, bc.img, L.start);
      NoneFree(bc.bufs, bc.uses, bc.pins, L, u, w, L.start);
      var x;
      ok, x := Take(L.start, {}, u, w);
      if ok {
        assert {} + {x} == {x};
        UpdateHead(x, u, w);
      }
    }

    /** memmove from the log block's buffer x to the home block's y, bwrite and bunpin of y. */
    method StoreHome(x: nat, y: nat, ghost u: seq<nat>, ghost w: map<nat, int>, ghost w': map<nat, int>)
      requires Alone({x, y}, u, w) && x < NBUF && y < NBUF && x != y && bc.bufs[y].locked && bc.bufs[y].valid
      requires bc.bufs[y].dev == ROOTDEV && L.Home(bc.bufs[y].blockno)
      requires IsUnpin(w, w', bc.bufs[y].blockno) && (u[y] > 0 ==> bc.pins[y] == 1)
      modifies bc`bufs, bc`img, bc`disk, bc`trace, bc`pins
      ensures Alone({x, y}, u, w') && bc.bufs[x] == old(bc.bufs)[x] && bc.pins[x] == old(bc.pins)[x]
      ensures bc.bufs[y] == old(bc.bufs)[y].(data := bc.bufs[x].data, refcnt := bc.bufs[y].refcnt)
      ensures var b, v := bc.bufs[y].blockno, bc.bufs[x].data;
              && bc.trace == old(bc.trace) + [Write(b, v)] && bc.disk == old(bc.disk)[b := v]
              && bc.img == old(bc.img)[b := v]
    {
      assert !L.Home(L.start);
      Fill(y, bc.bufs[x].data, {x, y}, u, w);
      Put(y, {x, y}, u, w);
      Unpin(y, {x, y}, u, w, w');
    }

    /** brelse of the log block's buffer, then of the home block's. */
    method DropBoth(x: nat, y: nat, ghost u: seq<nat>, ghost w: map<nat, int>)
      requires Alone({x, y}, u, w) && x < NBUF && y < NBUF && x != y
      requires bc.bufs[x].locked && bc.bufs[x].valid && bc.bufs[y].locked && bc.bufs[y].valid
      requires !L.Home(bc.bufs[x].blockno)
      requires bc.pins[x] == 0 && bc.bufs[x].data == bc.disk[bc.bufs[x].blockno]
      requires bc.bufs[y].data == bc.disk[bc.bufs[y].blockno]
      modifies bc`bufs, bc`uses, bc`next, bc`prev, bc`order
      ensures Alone({}, u, w) && HasFree(bc.bufs) && unchanged(bc`disk, bc`trace, bc`img, bc`pins)
    {
      Drop(x, {x, y}, u, w);
      Drop(y, {x, y} - {x}, u, w);
      assert {x, y} - {x} - {y} == {};
      RefcntIs(bc.bufs, bc.uses, bc.pins, L, {}, u, w, x);
      assert bc.bufs[x].refcnt == 0;
    }

    /** One round of install_trans: log slot to home block, written out and unpinned once. */
    method InstallBlock(tail: nat, ghost u: seq<nat>, ghost w: map<nat, int>, ghost w': map<nat, int>)
      returns (ok: bool)
      requires Alone({}, u, w) && tail < n && L.Slot(tail) !in w && IsUnpin(w, w', block[tail])
      requires u == Nobody() || (block[tail] in w && w[block[tail]] == 1)
      modifies bc
      ensures bc.Valid()
      ensures block[tail] in w ==> (ok <==> HasFree(old(bc.bufs)))
      ensures u == Nobody() ==> (ok <==> BuffersFor(w, block[tail]))
      ensures !ok ==> bc.trace == old(bc.trace)
      ensures ok ==> Alone({}, u, w') && HasFree(bc.bufs) && bc.disk[L.start] == old(bc.disk)[L.start]
      ensures ok ==> bc.trace == old(bc.trace) + [Write(block[tail], old(bc.img)[L.Slot(tail)])]
      ensures ok ==> bc.img == old(bc.img)[block[tail] := old(bc.img)[L.Slot(tail)]]
    {
      assert block[tail] == Lh()[tail] && !L.Home(L.Slot(tail));
      UnpinnedIsDisk(bc.bufs, bc.uses, bc.pins, L, u, w, bc.disk, bc.img, L.Slot(tail));
      var lbuf, dbuf;
      ok, lbuf, dbuf := TakePair(tail, u, w);
      if ok {
        StoreHome(lbuf, dbuf, u, w, w');
        DropBoth(lbuf, dbuf, u, w');
      }
    }

    /** The same round, as a step from k to k + 1 blocks installed since `was` and `t`. */
    method InstallRound(tail: nat, ghost u: seq<nat>, ghost w: map<nat, int>, ghost w': map<nat, int>,
                        ghost was: Disk, ghost t: seq<Write>)
      returns (ok: bool)
      requires Alone({}, u, w) && tail < n && L.Slot(tail) !in w && IsUnpin(w, w', block[tail])
      requires u == Nobody() || (block[tail] in w && w[block[tail]] == 1)
      requires HomesWritten(bc.img, bc.trace, L, Lh(), was, t, tail)
      modifies bc
      ensures bc.Valid()
      ensures block[tail] in w ==> (ok <==> HasFree(old(bc.bufs)))
      ensures u == Nobody() ==> (ok <==> BuffersFor(w, block[tail]))
      ensures ok ==> Alone({}, u, w') && HasFree(bc.bufs) && bc.disk[L.start] == old(bc.disk)[L.start]
      ensures ok ==> HomesWritten(bc.img, bc.trace, L, Lh(), was, t, tail + 1)
    {
      HomesWrittenNext(bc.img, bc.trace, L, Lh(), was, t, tail);
      ok := InstallBlock(tail, u, w, w');
    }

    /** install_trans. ws[k] are the pins before round k; a commit starts with its blocks pinned,
        a recovery with none, and with no other process about. */
    method InstallTrans(ghost u: seq<nat>, ghost ws: seq<map<nat, int>>) returns (ok: bool)
      requires Valid() && UnpinChain(ws, Lh(), L) && Alone({}, u, ws[0])
      requires u == Nobody() || AllPinned(ws, Lh())
      modifies bc
      ensures bc.Valid()
      ensures ok ==> Alone({}, u, ws[n]) && bc.disk[L.start] == old(bc.disk)[L.start]
      ensures ok ==> HomesWritten(bc.img, bc.trace, L, Lh(), old(bc.img), old(bc.trace), n)
      ensures ok ==> HasFree(old(bc.bufs)) || n > 0 ==> HasFree(bc.bufs)
      ensures HasFree(old(bc.bufs)) && AllPinned(ws, Lh()) ==> ok
      ensures u == Nobody() ==> (ok <==> BuffersDo(ws, Lh(), n))
    {
      assert old(bc.trace) + [] == old(bc.trace);
      ghost var lh := Lh();
      ok := true;
      for tail := 0 to n
        invariant Alone({}, u, ws[tail]) && bc.disk[L.start] == old(bc.disk)[L.start]
        invariant HasFree(old(bc.bufs)) || tail > 0 ==> HasFree(bc.bufs)
        invariant HomesWritten(bc.img, bc.trace, L, lh, old(bc.img), old(bc.trace), tail)
        invariant u == Nobody() ==> BuffersDo(ws, lh, tail)
      {
        ghost var w, w' := ws[tail], ws[tail + 1];
        assert lh[tail] == block[tail] && IsUnpin(w, w', lh[tail]);
        ok := InstallRound(tail, u, w, w', old(bc.img), old(bc.trace));
        if !ok {
          return;
        }
      }
      ok := true;
    }

    /** The first half of commit: slots, then the header, which is the commit point. */
    method LogPhase(ghost u: seq<nat>, ghost w: map<nat, int>) returns (ok: bool)
      requires Alone({}, u, w) && n > 0 && L.start !in w
      requires forall k | 0 <= k < n :: block[k] in w && w[block[k]] == 1 && L.Slot(k) !in w
      modifies bc
      ensures bc.Valid()
      ensures ok <==> HasFree(old(bc.bufs))
      ensures !ok ==> bc.trace == old(bc.trace)
      ensures ok ==> Alone({}, u, w) && HasFree(bc.bufs)
      ensures ok ==> var h := PutHeader(old(bc.disk)[L.start], Lh());
                     && bc.trace == old(bc.trace) + SlotWrites(L, Lh(), old(bc.img), n) + [Write(L.start, h)]
                     && bc.disk[L.start] == h
      ensures ok ==> Committed(bc.img, L, Lh(), old(bc.img))
    {
      ok := WriteLog(u, w);
      if ok {
        SlotsCommitted(bc.img, L, Lh(), old(bc.img), PutHeader(bc.disk[L.start], Lh()));
        ok := WriteHead(u, w);
      }
    }

    /** The second half of commit, and all of recover_from_log after read_head: home blocks from
        the slots, then the cleared header. */
    method ApplyPhase(ghost u: seq<nat>, ghost ws: seq<map<nat, int>>) returns (ok: bool)
      requires Valid() && UnpinChain(ws, Lh(), L) && Alone({}, u, ws[0]) && L.start !in ws[n]
      requires HasFree(bc.bufs) && (u == Nobody() || AllPinned(ws, Lh()))
      modifies bc, `n
      ensures bc.Valid()
      ensures AllPinned(ws, old(Lh())) ==> ok
      ensures u == Nobody() ==> (ok <==> BuffersDo(ws, old(Lh()), old(n)))
      ensures ok ==> n == 0 && Alone({}, u, ws[old(n)])
      ensures ok ==> var h := PutHeader(old(bc.disk)[L.start], []);
                     && bc.trace == old(bc.trace) + HomeWrites(L, old(Lh()), old(bc.img), old(n)) + [Write(L.start, h)]
                     && bc.img == HomeImage(L, old(Lh()), old(bc.img), old(n))[L.start := h]
    {
      ok := InstallTrans(u, ws);
      if ok {
        n := 0;
        assert Lh() == [];
        ok := WriteHead(u, ws[old(n)]);
      }
    }

    /** commit's body for a non-empty transaction whose pins before each install round are ws. */
    method CommitBlocks(ghost u: seq<nat>, ghost ws: seq<map<nat, int>>) returns (ok: bool)
      requires Valid() && n > 0 && UnpinChain(ws, Lh(), L) && AllPinned(ws, Lh()) && Alone({}, u, ws[0])
      requires ws[n] == map[]
      requires L.start !in ws[0]
      requires forall k | 0 <= k < n :: block[k] in ws[0] && ws[0][block[k]] == 1 && L.Slot(k) !in ws[0]
      modifies bc, `n
      ensures bc.Valid()
      ensures ok <==> HasFree(old(bc.bufs))
      ensures !ok ==> bc.trace == old(bc.trace)
      ensures ok ==> n == 0 && Alone({}, u, map[]) && SameHome(bc.img, old(bc.img), L)
      ensures ok ==> bc.trace == old(bc.trace) + CommitWrites(old(bc.disk), L, old(Lh()), old(bc.img))
    {
      ghost var lh := Lh();
      ok := LogPhase(u, ws[0]);
      if ok {
        CommitImage(L, lh, old(bc.img), bc.img, n);
        CommitTrace(old(bc.trace), old(bc.disk), L, lh, old(bc.img));
        ok := ApplyPhase(u, ws);
      }
    }

    /** commit, beside other processes that hold and wait for blocks as u says, but have none of the
        transaction's blocks locked. It panics just when the transaction's blocks and the other
        buffers in use leave none of the NBUF buffers; otherwise its disk writes are exactly the redo
        log's, no pin is left, and no block's contents change. */
    method Commit(ghost u: seq<nat>) returns (ok: bool)
      requires Valid() && Alone({}, u, Ones(Lh())) && Distinct(Lh())
      modifies bc, `n
      ensures bc.Valid()
      ensures ok <==> old(n) == 0 || old(n) + |old(Busy(bc.bufs, bc.uses, Ones(Lh())))| < NBUF
      ensures !ok ==> bc.trace == old(bc.trace)
      ensures ok ==> n == 0 && Alone({}, u, map[]) && SameHome(bc.img, old(bc.img), L)
      ensures ok ==> bc.trace == old(bc.trace)
                     + if old(n) == 0 then [] else CommitWrites(old(bc.disk), L, old(Lh()), old(bc.img))
    {
      if n > 0 {
        ghost var ws := StartCommit(Lh(), L);
        OnesSize(Lh());
        FreeLeft(bc.bufs, bc.uses, bc.pins, L, {}, u, Ones(Lh()));
        ok := CommitBlocks(u, ws);
      } else {
        assert Ones(Lh()) == map[];
        ok := true;
      }
    }

    /** end_op, with the commit it may run. False is a panic. */
    method EndOp(ghost u: seq<nat>) returns (ok: bool)
      requires Valid() && outstanding >= 1
      requires outstanding == 1 ==> Alone({}, u, Ones(Lh())) && Distinct(Lh())
      modifies bc, this
      ensures bc.Valid()
      ensures ok <==> && !old(committing)
                      && (|| old(outstanding) > 1 || old(n) == 0
                          || old(n) + |old(Busy(bc.bufs, bc.uses, Ones(Lh())))| < NBUF)
      ensures outstanding == old(outstanding) - 1
      ensures ok ==> !committing
      ensures ok && outstanding > 0 ==> unchanged(`n, `block, bc)
      ensures ok && outstanding == 0 ==> n == 0 && Alone({}, u, map[]) && SameHome(bc.img, old(bc.img), L)
      ensures ok && outstanding == 0 ==>
                bc.trace == old(bc.trace)
                + if old(n) == 0 then [] else CommitWrites(old(bc.disk), L, old(Lh()), old(bc.img))
      ensures !ok ==> bc.trace == old(bc.trace)
    {
      outstanding := outstanding - 1;
      if committing {
        return false;
      }
      ok := true;
      if outstanding == 0 {
        committing := true;
        ok := Commit(u);
        if ok {
          committing := false;
        }
      }
    }

    /** read_head's loop. */
    method CopyHeader(words: seq<int>)
      requires HeaderOk(Block(words), L, |bc.disk|) && |block| == LOGSIZE
      modifies `n, `block
      ensures |block| == LOGSIZE && n <= LOGSIZE && Lh() == Header(Block(words), L, |bc.disk|)
    {
      n := words[0];
      for i := 0 to n
        invariant |block| == LOGSIZE && n == words[0]
        invariant forall k | 0 <= k < i :: block[k] == words[1 + k]
      {
        block := block[i := words[1 + i]];
      }
    }

    /** read_head. */
    method ReadHead(ghost u: seq<nat>) returns (ok: bool)
      requires Alone({}, u, map[]) && u == Nobody() && HeaderOk(bc.disk[L.start], L, |bc.disk|) && n == 0
      modifies bc`bufs, bc`uses, bc`next, bc`prev, bc`order, `n, `block
      ensures unchanged(bc`disk, bc`trace, bc`img, bc`pins)
      ensures ok && Alone({}, u, map[]) && Lh() == Header(bc.disk[L.start], L, |bc.disk|)
    {
      assert !L.Home(L.start);
      UnpinnedIsDisk(bc.bufs, bc.uses, bc.pins, L, u, map[], bc.disk, bc.img, L.start);
      FirstTake(bc.bufs, bc.uses, bc.pins, L, u, map[], L.start);
      var x;
      ok, x := Take(L.start, {}, u, map[]);
      assert {} + {x} == {x};
      var words := bc.bufs[x].data.words;
      Drop(x, {x}, u, map[]);
      assert {x} - {x} == {};
      CopyHeader(words);
      assert forall i | 0 <= i < NBUF :: !bc.bufs[i].locked;
    }

    /** recover_from_log, before any other process runs: it succeeds just when the header lists fewer
        than NBUF different blocks. Its disk writes are exactly the redo log's recovery, and they are
        followed by a bunpin each that no bpin matches. */
    method Recover(ghost u: seq<nat>) returns (ok: bool)
      requires Alone({}, u, map[]) && u == Nobody() && HeaderOk(bc.disk[L.start], L, |bc.disk|) && n == 0
      modifies bc, `n, `block
      ensures bc.Valid()
      ensures ok <==> |Elems(old(Header(bc.disk[L.start], L, |bc.disk|)))| < NBUF
      ensures ok ==> n == 0 && Alone({}, u, Fallen(old(Header(bc.disk[L.start], L, |bc.disk|))))
      ensures ok ==> bc.trace == old(bc.trace) + RecoverWrites(old(bc.disk), L)
    {
      ok := ReadHead(u);
      FirstTake(bc.bufs, bc.uses, bc.pins, L, u, map[], L.start);
      ghost var ws := FallenChain(Lh(), L);
      RecoverTrace(bc.bufs, bc.uses, bc.pins, u, bc.disk, bc.img, L, bc.trace);
      RecoverBuffers(Lh(), ws);
      ok := ApplyPhase(u, ws);
    }
  }

  // ---- What the class's contracts give

  /** A crash after any k of the writes Commit reports recovers to all of the transaction or none. */
  lemma CrashDuringCommit(first: Disk, t: seq<Write>, d: Disk, L: Layout, lh: seq<nat>, img: Disk, k: nat)
    requires Fits(|first|, t) && d == Apply(first, t)
    requires Clean(d, L) && L.Loggable(lh, |d|) && |img| == |d| && k <= 2 * |lh| + 2
    ensures var now := t + CommitWrites(d, L, lh, img)[..k];
            && Fits(|first|, now) && DiskOk(Apply(first, now), L)
            && if k <= |lh| then SameHome(d, RedoLog.Recover(Apply(first, now), L), L)
               else IsPost(d, L, lh, img, RedoLog.Recover(Apply(first, now), L))
  {
    ApplyConcat(first, t, CommitWrites(d, L, lh, img)[..k]);
    CrashAtomicity(d, L, lh, img, k);
  }

  /** The disk Recover leaves is the recovered disk. */
  lemma DiskAfterRecover(first: Disk, t: seq<Write>, d: Disk, L: Layout)
    requires Fits(|first|, t) && d == Apply(first, t) && DiskOk(d, L)
    ensures Fits(|first|, t + RecoverWrites(d, L))
    ensures Apply(first, t + RecoverWrites(d, L)) == RedoLog.Recover(d, L)
  {
    ApplyConcat(first, t, RecoverWrites(d, L));
  }

  lemma FallenBuffer(bufs: seq<Buf>, uses: seq<nat>, pins: seq<int>, lh: seq<nat>, b: nat) returns (i: nat)
    requires Counted(bufs, uses, pins) && UsesAre(uses, Nobody(), {}) && PinsMatch(bufs, pins, Fallen(lh))
    requires |lh| <= LOGSIZE && b in lh
    ensures Cached(bufs, b, i) && pins[i] + multiset(lh)[b] == 0 && pins[i] < 0
    ensures bufs[i].refcnt == U32 - multiset(lh)[b]
  {
    assert InCache(bufs, b);
    i :| Cached(bufs, b, i);
    CountBound(lh);
  }

  lemma {:induction false} DistinctCount(s: seq<nat>, b: nat)
    requires Distinct(s) && b in s
    ensures multiset(s)[b] == 1
  {
    var m := |s| - 1;
    assert s == s[..m] + [s[m]];
    if b in s[..m] {
      DistinctCount(s[..m], b);
    }
  }

  /** Reference counts balance after a recovery just when the log was empty. Otherwise each
      recovered block's buffer is left at 2^32 - 1, so that its next user brings the count to 0
      and bget may recycle the buffer under it. */
  lemma RecoveryUnbalances(bufs: seq<Buf>, uses: seq<nat>, pins: seq<int>, lh: seq<nat>)
    requires Counted(bufs, uses, pins) && UsesAre(uses, Nobody(), {}) && PinsMatch(bufs, pins, Fallen(lh))
    requires |lh| <= LOGSIZE
    ensures Balanced(uses, pins) <==> lh == []
    ensures Distinct(lh) ==> forall b | b in lh :: exists i: nat ::
              Cached(bufs, b, i) && bufs[i].refcnt == U32 - 1 && Inc(bufs[i].refcnt) == 0
  {
    if lh != [] {
      var i := FallenBuffer(bufs, uses, pins, lh, lh[0]);
    }
    if Distinct(lh) {
      forall b | b in lh
        ensures exists i: nat :: Cached(bufs, b, i) && bufs[i].refcnt == U32 - 1 && Inc(bufs[i].refcnt) == 0
      {
        DistinctCount(lh, b);
        var i := FallenBuffer(bufs, uses, pins, lh, b);
      }
    }
  }
}
