/** The buffer cache: NBUF buffers on a doubly linked list kept in most-recently-used order. */
module BufferCache {
  import opened Blocks
  import opened Counters
  import opened Lists
  import opened Params

  /** Index of the list head in `next` and `prev`. */
  const HEAD: nat := NBUF

  /** struct buf without its list links. */
  datatype Buf = Buf(valid: bool, dev: nat, blockno: nat, refcnt: nat, locked: bool, data: Block) {
    predicate Is(d: nat, b: nat) { dev == d && blockno == b }
  }

  // refcnt is an unsigned 32-bit field.
  function Inc(r: nat): nat { (r + 1) % U32 }
  function Dec(r: nat): nat { (r + U32 - 1) % U32 }

  // ---- The list

  ghost function Cycle(order: seq<nat>): seq<nat> { [HEAD] + order + [HEAD] }

  ghost predicate Linked(next: seq<nat>, prev: seq<nat>, c: seq<nat>, k: nat)
    requires |next| == |prev| == NBUF + 1 && k + 1 < |c|
  {
    c[k] <= NBUF && c[k + 1] <= NBUF && next[c[k]] == c[k + 1] && prev[c[k + 1]] == c[k]
  }

  /** next and prev link the head and the buffers of `order`, first to last, in one ring. */
  ghost predicate Ring(next: seq<nat>, prev: seq<nat>, order: seq<nat>) {
    && |next| == |prev| == NBUF + 1
    && Distinct(order)
    && (forall k | 0 <= k < |order| :: order[k] < NBUF)
    && forall k: nat | k <= |order| :: Linked(next, prev, Cycle(order), k)
  }

  ghost function Without(order: seq<nat>, k: nat): seq<nat>
    requires k < |order|
  {
    order[..k] + order[k + 1..]
  }

  lemma RingStep(next: seq<nat>, prev: seq<nat>, order: seq<nat>, k: nat)
    requires Ring(next, prev, order) && k < |order|
    ensures next[order[k]] == (if k + 1 < |order| then order[k + 1] else HEAD)
    ensures prev[order[k]] == (if k > 0 then order[k - 1] else HEAD)
    ensures next[HEAD] == order[0] && prev[HEAD] == order[|order| - 1]
  {
    var c := Cycle(order);
    assert Linked(next, prev, c, k) && Linked(next, prev, c, k + 1);
    assert Linked(next, prev, c, 0) && Linked(next, prev, c, |order|);
    assert c[k + 1] == order[k] && c[1] == order[0] && c[|order|] == order[|order| - 1];
  }

  /** Positions of the cycle hold the same buffer only at its two ends. */
  lemma CycleDistinct(order: seq<nat>, i: nat, j: nat)
    requires Distinct(order) && forall k | 0 <= k < |order| :: order[k] < NBUF
    requires i <= |order| + 1 && j <= |order| + 1
    ensures Cycle(order)[i] == Cycle(order)[j] ==>
              i == j || (i == 0 && j == |order| + 1) || (j == 0 && i == |order| + 1)
  {
  }

  lemma UnlinkAt(next: seq<nat>, prev: seq<nat>, order: seq<nat>, k: nat, i: nat)
    requires Ring(next, prev, order) && k < |order| && i < |order|
    ensures var c := Cycle(order);
            && c[k] <= NBUF && c[k + 2] <= NBUF
            && Linked(next[c[k] := c[k + 2]], prev[c[k + 2] := c[k]], c[..k + 1] + c[k + 2..], i)
  {
    var c := Cycle(order);
    assert Linked(next, prev, c, k) && Linked(next, prev, c, k + 1);
    var j := if i <= k then i else i + 1;
    if i != k {
      assert Linked(next, prev, c, j);
      CycleDistinct(order, j, k);
      CycleDistinct(order, j + 1, k + 2);
    }
  }

  /** b->next->prev = b->prev; b->prev->next = b->next. */
  lemma UnlinkRing(next: seq<nat>, prev: seq<nat>, order: seq<nat>, k: nat)
    requires Ring(next, prev, order) && k < |order|
    ensures var b := order[k];
            && next[b] <= NBUF && prev[b] <= NBUF
            && Ring(next[prev[b] := next[b]], prev[next[b] := prev[b]], Without(order, k))
  {
    var b, c := order[k], Cycle(order);
    assert Linked(next, prev, c, k) && Linked(next, prev, c, k + 1);
    assert c[k + 1] == b;
    var next', prev', c' := next[prev[b] := next[b]], prev[next[b] := prev[b]], Cycle(Without(order, k));
    assert c' == c[..k + 1] + c[k + 2..];
    forall i: nat | i < |order|
      ensures Linked(next', prev', c', i)
    {
      UnlinkAt(next, prev, order, k, i);
    }
  }

  /** b->next = head.next; b->prev = &head; head.next->prev = b; head.next = b. */
  lemma LinkRing(next: seq<nat>, prev: seq<nat>, order: seq<nat>, b: nat)
    requires Ring(next, prev, order) && b < NBUF && b !in order
    ensures next[HEAD] <= NBUF
    ensures Ring(next[b := next[HEAD]][HEAD := b], prev[b := HEAD][next[HEAD] := b], [b] + order)
  {
    var c, c' := Cycle(order), Cycle([b] + order);
    assert Linked(next, prev, c, 0);
    var next', prev' := next[b := next[HEAD]][HEAD := b], prev[b := HEAD][next[HEAD] := b];
    forall i: nat | i <= |order| + 1
      ensures Linked(next', prev', c', i)
    {
      if i >= 1 {
        assert c'[i + 1] == c[i];
        if i >= 2 {
          assert c'[i] == c[i - 1];
          assert Linked(next, prev, c, i - 1);
          CycleDistinct(order, i - 1, 0);
          CycleDistinct(order, i, 1);
        }
      }
    }
  }

  ghost predicate SameKey(bufs: seq<Buf>, i: int, j: int)
    requires 0 <= i < |bufs| && 0 <= j < |bufs|
  {
    bufs[j].Is(bufs[i].dev, bufs[i].blockno)
  }

  // ---- Keys and reference counts

  /** Outside the unused device number 0, at most one buffer holds a block. */
  ghost predicate UniqueKeys(bufs: seq<Buf>) {
    forall i, j {:trigger SameKey(bufs, i, j)} ::
      0 <= i < |bufs| && 0 <= j < |bufs| && i != j && bufs[i].dev != 0 ==> !SameKey(bufs, i, j)
  }

  ghost predicate Absent(bufs: seq<Buf>, dev: nat, b: nat) {
    forall j | 0 <= j < |bufs| :: !bufs[j].Is(dev, b)
  }

  /** When bget panics: the block is not cached and every buffer is referenced. */
  ghost predicate NoBuffer(bufs: seq<Buf>, dev: nat, b: nat) {
    Absent(bufs, dev, b) && forall j | 0 <= j < |bufs| :: bufs[j].refcnt != 0
  }

  /** Re-keying one buffer to its own key or to an absent one keeps keys unique. */
  lemma KeysKept(bufs: seq<Buf>, i: nat, x: Buf)
    requires UniqueKeys(bufs) && i < |bufs|
    requires x.Is(bufs[i].dev, bufs[i].blockno) || Absent(bufs, x.dev, x.blockno)
    ensures UniqueKeys(bufs[i := x])
  {
    var bufs' := bufs[i := x];
    forall p, q | 0 <= p < |bufs| && 0 <= q < |bufs| && p != q && bufs'[p].dev != 0
      ensures !SameKey(bufs', p, q)
    {
      assert bufs[p].dev != 0 ==> !SameKey(bufs, p, q);
      assert bufs[q].dev != 0 ==> !SameKey(bufs, q, p);
    }
  }

  /** refcnt counts processes between bget and brelse (holding or waiting) plus pins,
      as a 32-bit field does. */
  ghost predicate Counted(bufs: seq<Buf>, uses: seq<nat>, pins: seq<int>) {
    && |bufs| == |uses| == |pins|
    && (forall i | 0 <= i < |bufs| :: bufs[i].refcnt == (uses[i] + pins[i]) % U32)
    && (forall i | 0 <= i < |bufs| :: bufs[i].locked ==> uses[i] >= 1)
  }

  /** No bunpin without its bpin, and counts below the field's width. */
  ghost predicate Balanced(uses: seq<nat>, pins: seq<int>) {
    |uses| == |pins| && forall i | 0 <= i < |uses| :: pins[i] >= 0 && uses[i] + pins[i] < U32
  }

  /** In a balanced cache a buffer bget may recycle is neither held, awaited nor pinned. */
  lemma FreeIsUnused(bufs: seq<Buf>, uses: seq<nat>, pins: seq<int>, i: nat)
    requires Counted(bufs, uses, pins) && Balanced(uses, pins) && i < |bufs|
    ensures bufs[i].refcnt == 0 <==> uses[i] == 0 && pins[i] == 0
    ensures bufs[i].refcnt == 0 ==> !bufs[i].locked
  {
  }

  /** A buffer that bget may recycle really is unused; true of every balanced cache. */
  ghost predicate Sane(bufs: seq<Buf>, uses: seq<nat>, pins: seq<int>)
    requires |bufs| == |uses| == |pins|
  {
    forall i | 0 <= i < |bufs| && bufs[i].refcnt == 0 :: uses[i] == 0 && pins[i] == 0
  }

  /** Valid buffers hold root-device blocks, and one that is neither used nor pinned matches the disk. */
  ghost predicate Synced(bufs: seq<Buf>, uses: seq<nat>, pins: seq<int>, disk: Disk)
    requires |bufs| == |uses| == |pins|
  {
    forall i | 0 <= i < |bufs| && bufs[i].valid ::
      && bufs[i].dev == ROOTDEV && bufs[i].blockno < |disk|
      && (uses[i] == 0 && pins[i] <= 0 ==> bufs[i].data == disk[bufs[i].blockno])
  }

  // ---- Contents

  ghost predicate Cached(bufs: seq<Buf>, b: nat, i: nat) {
    i < |bufs| && bufs[i].valid && bufs[i].Is(ROOTDEV, b)
  }

  /** What bread returns for block b: the valid cached copy, else the disk's. */
  ghost function Content(bufs: seq<Buf>, disk: Disk, b: nat): Block
    requires b < |disk|
  {
    if exists i: nat :: Cached(bufs, b, i) then (var i: nat :| Cached(bufs, b, i); bufs[i].data) else disk[b]
  }

  /** img gives the contents of every block. */
  ghost predicate Shows(bufs: seq<Buf>, disk: Disk, img: Disk) {
    |img| == |disk| && forall b: nat {:trigger Content(bufs, disk, b)} | b < |disk| :: img[b] == Content(bufs, disk, b)
  }

  lemma ContentAt(bufs: seq<Buf>, disk: Disk, b: nat, i: nat)
    requires UniqueKeys(bufs) && Cached(bufs, b, i) && b < |disk|
    ensures Content(bufs, disk, b) == bufs[i].data
  {
    forall j: nat | Cached(bufs, b, j)
      ensures j == i
    {
      assert j != i ==> SameKey(bufs, i, j);
    }
  }

  /** Loading b into buffer i, already holding b or recycled clean, changes no block's contents. */
  lemma LoadKeeps(bufs: seq<Buf>, disk: Disk, b: nat, i: nat, x: Buf, c: nat)
    requires UniqueKeys(bufs) && i < |bufs| && b < |disk| && c < |disk|
    requires x.valid && x.Is(ROOTDEV, b) && x.data == Content(bufs, disk, b)
    requires !bufs[i].Is(ROOTDEV, b) ==>
               && Absent(bufs, ROOTDEV, b)
               && (bufs[i].valid ==> bufs[i].blockno < |disk| && bufs[i].data == disk[bufs[i].blockno])
    ensures UniqueKeys(bufs[i := x]) && Content(bufs[i := x], disk, c) == Content(bufs, disk, c)
  {
    var bufs' := bufs[i := x];
    KeysKept(bufs, i, x);
    if c == b {
      ContentAt(bufs', disk, b, i);
    } else if j: nat :| Cached(bufs', c, j) {
      assert Cached(bufs, c, j);
      ContentAt(bufs', disk, c, j);
      ContentAt(bufs, disk, c, j);
    } else if j: nat :| Cached(bufs, c, j) {
      assert j != i ==> Cached(bufs', c, j);
      ContentAt(bufs, disk, c, i);
    }
  }

  /** Storing v into buffer i changes the contents of its own block only. */
  lemma StoreChanges(bufs: seq<Buf>, disk: Disk, i: nat, v: Block, c: nat)
    requires UniqueKeys(bufs) && i < |bufs| && bufs[i].valid && bufs[i].dev == ROOTDEV && c < |disk|
    ensures Content(bufs[i := bufs[i].(data := v)], disk, c)
            == if c == bufs[i].blockno then v else Content(bufs, disk, c)
  {
    var bufs' := bufs[i := bufs[i].(data := v)];
    KeysKept(bufs, i, bufs'[i]);
    assert forall j: nat :: Cached(bufs', c, j) == Cached(bufs, c, j);
    if c == bufs[i].blockno {
      ContentAt(bufs', disk, c, i);
    } else if j: nat :| Cached(bufs, c, j) {
      ContentAt(bufs', disk, c, j);
      ContentAt(bufs, disk, c, j);
    }
  }

  /** A cached block hides its disk copy. */
  lemma DiskHidden(bufs: seq<Buf>, disk: Disk, disk': Disk, c: nat)
    requires UniqueKeys(bufs) && c < |disk| == |disk'|
    requires disk'[c] == disk[c] || exists j: nat :: Cached(bufs, c, j)
    ensures Content(bufs, disk', c) == Content(bufs, disk, c)
  {
    if j: nat :| Cached(bufs, c, j) {
      ContentAt(bufs, disk', c, j);
      ContentAt(bufs, disk, c, j);
    }
  }

  // ---- Taking and dropping references

  lemma IncDec(u: int, r: nat)
    requires r == u % U32
    ensures Inc(r) == (u + 1) % U32 && Dec(r) == (u - 1) % U32
  {
  }

  /** The buffers after bget settles on i for (dev, b): referenced once more if it already
      held the block, re-keyed and invalid otherwise. */
  function Taken(bufs: seq<Buf>, i: nat, dev: nat, b: nat): (r: seq<Buf>)
    requires i < |bufs|
    ensures |r| == |bufs|
  {
    var x := bufs[i];
    if x.Is(dev, b) then bufs[i := x.(refcnt := Inc(x.refcnt))]
    else bufs[i := x.(dev := dev, blockno := b, valid := false, refcnt := 1)]
  }

  lemma TakenOk(bufs: seq<Buf>, uses: seq<nat>, pins: seq<int>, i: nat, dev: nat, b: nat)
    requires UniqueKeys(bufs) && Counted(bufs, uses, pins) && i < |bufs|
    requires !bufs[i].Is(dev, b) ==> bufs[i].refcnt == 0 && Absent(bufs, dev, b)
    ensures UniqueKeys(Taken(bufs, i, dev, b))
    ensures Counted(Taken(bufs, i, dev, b), uses[i := uses[i] + 1], pins)
  {
    IncDec(uses[i] + pins[i], bufs[i].refcnt);
    KeysKept(bufs, i, Taken(bufs, i, dev, b)[i]);
  }

  /** The buffers once bread has locked and, if need be, loaded b in buffer i. */
  function Loaded(bufs: seq<Buf>, disk: Disk, i: nat, b: nat): (r: seq<Buf>)
    requires i < |bufs| && b < |disk|
  {
    var x := Taken(bufs, i, ROOTDEV, b)[i];
    bufs[i := x.(locked := true, valid := true, data := if x.valid then x.data else disk[b])]
  }

  lemma LoadedOk(bufs: seq<Buf>, uses: seq<nat>, pins: seq<int>, disk: Disk, img: Disk, i: nat, b: nat)
    requires UniqueKeys(bufs) && Counted(bufs, uses, pins) && Synced(bufs, uses, pins, disk) && Sane(bufs, uses, pins)
    requires Shows(bufs, disk, img) && i < |bufs| && b < |disk|
    requires !bufs[i].Is(ROOTDEV, b) ==> bufs[i].refcnt == 0 && Absent(bufs, ROOTDEV, b)
    ensures var bufs' := Loaded(bufs, disk, i, b);
            && bufs'[i].data == img[b] && bufs'[i].Is(ROOTDEV, b)
            && UniqueKeys(bufs') && Shows(bufs', disk, img)
            && Counted(bufs', uses[i := uses[i] + 1], pins) && Synced(bufs', uses[i := uses[i] + 1], pins, disk)
  {
    TakenOk(bufs, uses, pins, i, ROOTDEV, b);
    var bufs' := Loaded(bufs, disk, i, b);
    assert bufs'[i].data == Content(bufs, disk, b) by {
      if bufs[i].Is(ROOTDEV, b) && bufs[i].valid {
        ContentAt(bufs, disk, b, i);
      } else {
        forall j: nat
          ensures !Cached(bufs, b, j)
        {
          if j < |bufs| && j != i && bufs[i].Is(ROOTDEV, b) {
            assert !SameKey(bufs, i, j);
          }
        }
      }
    }
    forall c: nat | c < |disk|
      ensures Content(bufs', disk, c) == img[c]
    {
      assert img[c] == Content(bufs, disk, c);
      LoadKeeps(bufs, disk, b, i, bufs'[i], c);
    }
    LoadKeeps(bufs, disk, b, i, bufs'[i], b);
  }

  /** Changing only reference counts and locks keeps keys and contents. */
  lemma SameFace(bufs: seq<Buf>, disk: Disk, img: Disk, i: nat, r: nat, l: bool)
    requires UniqueKeys(bufs) && Shows(bufs, disk, img) && i < |bufs|
    ensures var bufs' := bufs[i := bufs[i].(refcnt := r, locked := l)];
            UniqueKeys(bufs') && Shows(bufs', disk, img)
  {
    var bufs' := bufs[i := bufs[i].(refcnt := r, locked := l)];
    KeysKept(bufs, i, bufs'[i]);
    forall c: nat | c < |disk|
      ensures Content(bufs', disk, c) == img[c]
    {
      assert img[c] == Content(bufs, disk, c);
      assert forall j: nat :: Cached(bufs', c, j) == Cached(bufs, c, j);
      if j: nat :| Cached(bufs, c, j) {
        ContentAt(bufs', disk, c, j);
        ContentAt(bufs, disk, c, j);
      }
    }
  }

  lemma StoreShows(bufs: seq<Buf>, disk: Disk, img: Disk, i: nat, v: Block)
    requires UniqueKeys(bufs) && Shows(bufs, disk, img) && i < |bufs|
    requires bufs[i].valid && bufs[i].dev == ROOTDEV && bufs[i].blockno < |disk|
    ensures var bufs' := bufs[i := bufs[i].(data := v)];
            UniqueKeys(bufs') && Shows(bufs', disk, img[bufs[i].blockno := v])
  {
    var bufs' := bufs[i := bufs[i].(data := v)];
    KeysKept(bufs, i, bufs'[i]);
    forall c: nat | c < |disk|
      ensures Content(bufs', disk, c) == img[bufs[i].blockno := v][c]
    {
      assert img[c] == Content(bufs, disk, c);
      StoreChanges(bufs, disk, i, v, c);
    }
  }

  /** Writing a cached block out changes no block's contents. */
  lemma WriteShows(bufs: seq<Buf>, uses: seq<nat>, pins: seq<int>, disk: Disk, img: Disk, i: nat)
    requires UniqueKeys(bufs) && |bufs| == |uses| == |pins| && Synced(bufs, uses, pins, disk) && Shows(bufs, disk, img)
    requires i < |bufs| && bufs[i].valid
    ensures var disk' := disk[bufs[i].blockno := bufs[i].data];
            Synced(bufs, uses, pins, disk') && Shows(bufs, disk', img)
  {
    var b := bufs[i].blockno;
    var disk' := disk[b := bufs[i].data];
    assert Cached(bufs, b, i);
    forall c: nat | c < |disk|
      ensures Content(bufs, disk', c) == img[c]
    {
      assert img[c] == Content(bufs, disk, c);
      DiskHidden(bufs, disk, disk', c);
    }
    forall j | 0 <= j < |bufs| && bufs[j].valid && uses[j] == 0 && pins[j] <= 0
      ensures bufs[j].data == disk'[bufs[j].blockno]
    {
      assert j != i ==> !SameKey(bufs, i, j);
    }
  }

  /** The list after buffer i has been moved to its front. */
  ghost function MoveToFront(order: seq<nat>, i: nat): seq<nat>
    requires i in order
  {
    var k :| 0 <= k < |order| && order[k] == i;
    [i] + Without(order, k)
  }

  // The list is in the order of the last releases

  ghost predicate Ahead(order: seq<nat>, i: nat, j: nat) {
    exists a, b :: 0 <= a < b < |order| && order[a] == i && order[b] == j
  }

  lemma FrontAhead(order: seq<nat>, i: nat, j: nat)
    requires i in order && j in order && i != j
    ensures j in MoveToFront(order, i) && Ahead(MoveToFront(order, i), i, j)
  {
    var k :| 0 <= k < |order| && order[k] == i && MoveToFront(order, i) == [i] + Without(order, k);
    var b :| 0 <= b < |order| && order[b] == j;
    var to := [i] + Without(order, k);
    assert to[0] == i && to[if b < k then b + 1 else b] == j;
  }

  lemma StaysAhead(order: seq<nat>, i: nat, j: nat, x: nat)
    requires x in order && Ahead(order, i, j) && i != j && x != j
    ensures Ahead(MoveToFront(order, x), i, j)
  {
    if x == i {
      FrontAhead(order, i, j);
    } else {
      var k :| 0 <= k < |order| && order[k] == x && MoveToFront(order, x) == [x] + Without(order, k);
      var a, b :| 0 <= a < b < |order| && order[a] == i && order[b] == j;
      var to := [x] + Without(order, k);
      var a', b' := if a < k then a + 1 else a, if b < k then b + 1 else b;
      assert to[a'] == i && to[b'] == j;
    }
  }

  /** The list after some releases in a row. */
  ghost function Releases(order: seq<nat>, rs: seq<nat>): (r: seq<nat>)
    requires forall k | 0 <= k < |rs| :: rs[k] in order
    ensures forall x | x in order :: x in r
    decreases |rs|
  {
    if rs == [] then order
    else
      var x, before := rs[|rs| - 1], Releases(order, rs[..|rs| - 1]);
      assert forall j | j in before && j != x :: j in MoveToFront(before, x) by {
        forall j | j in before && j != x
          ensures j in MoveToFront(before, x)
        {
          FrontAhead(before, x, j);
        }
      }
      MoveToFront(before, x)
  }

  /** A buffer released after the last release of another stands before it, so the walk from the back meets it
      later. */
  lemma {:induction false} RecentAhead(order: seq<nat>, rs: seq<nat>, k: nat, j: nat)
    requires (forall m | 0 <= m < |rs| :: rs[m] in order) && k < |rs| && j in order
    requires forall m | k <= m < |rs| :: rs[m] != j
    ensures Ahead(Releases(order, rs), rs[k], j)
    decreases |rs|
  {
    var n := |rs| - 1;
    var before := Releases(order, rs[..n]);
    if k == n {
      FrontAhead(before, rs[k], j);
    } else {
      RecentAhead(order, rs[..n], k, j);
      StaysAhead(before, rs[k], j, rs[n]);
    }
  }

  /** i is free, and every buffer released less recently is in use. */
  ghost predicate LeastRecentFree(bufs: seq<Buf>, order: seq<nat>, i: nat)
    requires |bufs| == |order| == NBUF && i < NBUF && forall k | 0 <= k < NBUF :: order[k] < NBUF
  {
    && bufs[i].refcnt == 0
    && exists k :: 0 <= k < NBUF && order[k] == i && forall j | k < j < NBUF :: bufs[order[j]].refcnt != 0
  }

  // ---- The cache

  class Cache {
    var disk: Disk
    var bufs: seq<Buf>
    var next: seq<nat>
    var prev: seq<nat>
    /** The disk this started from, and the writes done to it since. */
    ghost const first: Disk
    ghost var trace: seq<Write>
    /** The latest contents of every block, as bread returns them. */
    ghost var img: Disk
    /** The list, most recently used first; users and pins of each buffer. */
    ghost var order: seq<nat>
    ghost var uses: seq<nat>
    ghost var pins: seq<int>

    ghost predicate Valid()
      reads this
    {
      && |bufs| == |order| == NBUF
      && Ring(next, prev, order)
      && UniqueKeys(bufs)
      && Counted(bufs, uses, pins)
      && Synced(bufs, uses, pins, disk)
      && Shows(bufs, disk, img)
      && |first| == |disk| && Fits(|first|, trace) && disk == Apply(first, trace)
    }

    /** binit: zeroed buffers, linked one by one at the front. */
    constructor (d: Disk)
      ensures Valid() && disk == first == img == d && trace == []
      ensures Balanced(uses, pins) && order == seq(NBUF, i => NBUF - 1 - i)
      ensures forall i | 0 <= i < NBUF :: !bufs[i].valid && bufs[i].refcnt == 0 && uses[i] == pins[i] == 0
    {
      disk, first, img, trace := d, d, d, [];
      bufs := seq(NBUF, i => Buf(false, 0, 0, 0, false, Block([])));
      uses, pins := seq(NBUF, i => 0), seq(NBUF, i => 0);
      next, prev := seq(NBUF + 1, i => HEAD), seq(NBUF + 1, i => HEAD);
      order := [];
      new;
      assert forall b: nat, i: nat :: !Cached(bufs, b, i);
      for b := 0 to NBUF
        invariant Ring(next, prev, order) && |order| == b
        invariant forall k | 0 <= k < b :: order[k] == b - 1 - k
        modifies `next, `prev, `order
      {
        LinkRing(next, prev, order, b);
        next := next[b := next[HEAD]];
        prev := prev[b := HEAD];
        prev := prev[next[HEAD] := b];
        next := next[HEAD := b];
        order := [b] + order;
      }
    }

    /** bget's first loop: from the most recently used buffer on, look for the block. */
    method FindCached(dev: nat, blockno: nat) returns (r: Option<nat>)
      requires |bufs| == |order| == NBUF && Ring(next, prev, order)
      ensures r.Some? ==> r.value < NBUF && bufs[r.value].Is(dev, blockno)
      ensures r.None? ==> Absent(bufs, dev, blockno)
    {
      var b := next[HEAD];
      ghost var k := 0;
      RingStep(next, prev, order, 0);
      while b != HEAD
        invariant 0 <= k <= NBUF && b == (if k < NBUF then order[k] else HEAD)
        invariant forall j | 0 <= j < k :: !bufs[order[j]].Is(dev, blockno)
        decreases NBUF - k
      {
        if bufs[b].Is(dev, blockno) {
          return Some(b);
        }
        RingStep(next, prev, order, k);
        b := next[b];
        k := k + 1;
      }
      forall i: nat | i < NBUF
        ensures !bufs[i].Is(dev, blockno)
      {
        Pigeonhole(order, NBUF, i);
      }
      return None;
    }

    /** bget's second loop: from the least recently used buffer back, look for an unreferenced one. */
    method FindFree() returns (r: Option<nat>)
      requires |bufs| == |order| == NBUF && Ring(next, prev, order)
      ensures r.Some? ==> r.value < NBUF && LeastRecentFree(bufs, order, r.value)
      ensures r.None? ==> forall i | 0 <= i < NBUF :: bufs[i].refcnt != 0
    {
      var b := prev[HEAD];
      ghost var k := NBUF;
      RingStep(next, prev, order, NBUF - 1);
      while b != HEAD
        invariant 0 <= k <= NBUF && b == (if k > 0 then order[k - 1] else HEAD)
        invariant forall j | k <= j < NBUF :: bufs[order[j]].refcnt != 0
        decreases k
      {
        if bufs[b].refcnt == 0 {
          assert order[k - 1] == b;
          return Some(b);
        }
        RingStep(next, prev, order, k - 1);
        b := prev[b];
        k := k - 1;
      }
      forall i: nat | i < NBUF
        ensures bufs[i].refcnt != 0
      {
        Pigeonhole(order, NBUF, i);
      }
      return None;
    }

    /** bget's locked region. None is the panic "bget: no buffers". */
    method Bget(dev: nat, blockno: nat) returns (r: Option<nat>)
      requires Valid() && dev != 0
      modifies `bufs, `uses
      ensures |bufs| == NBUF && UniqueKeys(bufs) && Counted(bufs, uses, pins)
      ensures r.None? <==> NoBuffer(old(bufs), dev, blockno)
      ensures r.None? ==> bufs == old(bufs) && uses == old(uses)
      ensures r.Some? ==>
        && r.value < NBUF
        && bufs == Taken(old(bufs), r.value, dev, blockno)
        && uses == old(uses)[r.value := old(uses)[r.value] + 1]
        && (!old(bufs)[r.value].Is(dev, blockno) ==>
              Absent(old(bufs), dev, blockno) && LeastRecentFree(old(bufs), order, r.value))
    {
      r := FindCached(dev, blockno);
      if r.None? {
        r := FindFree();
        if r.None? {
          return;
        }
      }
      var b := r.value;
      TakenOk(bufs, uses, pins, b, dev, blockno);
      if bufs[b].Is(dev, blockno) {
        bufs := bufs[b := bufs[b].(refcnt := Inc(bufs[b].refcnt))];
      } else {
        bufs := bufs[b := bufs[b].(dev := dev, blockno := blockno, valid := false, refcnt := 1)];
      }
      uses := uses[b := uses[b] + 1];
    }

    /** bread. The block's sleep lock is free when acquiresleep returns, hence the fourth requires. */
    method Bread(b: nat) returns (r: Option<nat>)
      requires Valid() && b < |disk|
      requires Sane(bufs, uses, pins)
      requires forall i | 0 <= i < NBUF && bufs[i].Is(ROOTDEV, b) :: !bufs[i].locked
      modifies `bufs, `uses
      ensures Valid()
      ensures r.None? <==> NoBuffer(old(bufs), ROOTDEV, b)
      ensures r.None? ==> bufs == old(bufs) && uses == old(uses)
      ensures r.Some? ==>
        && r.value < NBUF
        && (old(bufs)[r.value].Is(ROOTDEV, b) || (old(bufs)[r.value].refcnt == 0 && Absent(old(bufs), ROOTDEV, b)))
        && bufs == old(bufs)[r.value := bufs[r.value]]
        && bufs[r.value].Is(ROOTDEV, b) && bufs[r.value].valid && bufs[r.value].locked
        && bufs[r.value].data == img[b]
        && uses == old(uses)[r.value := old(uses)[r.value] + 1]
    {
      r := Bget(ROOTDEV, b);
      if r.Some? {
        var i := r.value;
        LoadedOk(old(bufs), old(uses), pins, disk, img, i, b);
        var x := bufs[i].(locked := true);
        if !x.valid {
          x := x.(data := disk[b], valid := true);
        }
        bufs := bufs[i := x];
        assert bufs == Loaded(old(bufs), disk, i, b);
      }
    }

    /** memmove into a locked buffer. */
    method SetData(i: nat, v: Block)
      requires Valid() && i < NBUF && bufs[i].locked && bufs[i].valid
      modifies `bufs, `img
      ensures Valid() && bufs == old(bufs)[i := old(bufs)[i].(data := v)]
      ensures img == old(img)[bufs[i].blockno := v]
    {
      StoreShows(bufs, disk, img, i, v);
      bufs := bufs[i := bufs[i].(data := v)];
      img := img[bufs[i].blockno := v];
    }

    /** bwrite: the only method here that writes the disk. */
    method Bwrite(i: nat)
      requires Valid() && i < NBUF && bufs[i].locked && bufs[i].valid
      modifies `disk, `trace
      ensures Valid()
      ensures trace == old(trace) + [Write(bufs[i].blockno, bufs[i].data)]
      ensures disk == old(disk)[bufs[i].blockno := bufs[i].data]
    {
      var w := Write(bufs[i].blockno, bufs[i].data);
      ApplyAppend(first, trace, w);
      WriteShows(bufs, uses, pins, disk, img, i);
      disk, trace := disk[w.bno := w.data], trace + [w];
    }

    method Bpin(i: nat)
      requires Valid() && i < NBUF
      modifies `bufs, `pins
      ensures Valid() && pins == old(pins)[i := old(pins)[i] + 1]
      ensures bufs == old(bufs)[i := old(bufs)[i].(refcnt := Inc(old(bufs)[i].refcnt))]
    {
      IncDec(uses[i] + pins[i], bufs[i].refcnt);
      SameFace(bufs, disk, img, i, Inc(bufs[i].refcnt), bufs[i].locked);
      bufs := bufs[i := bufs[i].(refcnt := Inc(bufs[i].refcnt))];
      pins := pins[i := pins[i] + 1];
    }

    /** bunpin, of a held buffer. */
    method Bunpin(i: nat)
      requires Valid() && i < NBUF && uses[i] >= 1
      modifies `bufs, `pins
      ensures Valid() && pins == old(pins)[i := old(pins)[i] - 1]
      ensures bufs == old(bufs)[i := old(bufs)[i].(refcnt := Dec(old(bufs)[i].refcnt))]
    {
      IncDec(uses[i] + pins[i], bufs[i].refcnt);
      SameFace(bufs, disk, img, i, Dec(bufs[i].refcnt), bufs[i].locked);
      bufs := bufs[i := bufs[i].(refcnt := Dec(bufs[i].refcnt))];
      pins := pins[i := pins[i] - 1];
    }

    /** brelse's list update: to the front of the list. */
    method Touch(b: nat)
      requires |order| == NBUF && Ring(next, prev, order) && b < NBUF
      modifies `next, `prev, `order
      ensures b in old(order) && order == MoveToFront(old(order), b)
      ensures |order| == NBUF && Ring(next, prev, order)
    {
      Pigeonhole(order, NBUF, b);
      ghost var k :| 0 <= k < |order| && order[k] == b && MoveToFront(order, b) == [b] + Without(order, k);
      UnlinkRing(next, prev, order, k);
      prev := prev[next[b] := prev[b]];
      next := next[prev[b] := next[b]];
      order := Without(order, k);
      LinkRing(next, prev, order, b);
      next := next[b := next[HEAD]];
      prev := prev[b := HEAD];
      prev := prev[next[HEAD] := b];
      next := next[HEAD := b];
      order := [b] + order;
    }

    /** brelse. A buffer let go by its last user must be pinned or match the disk:
        what was changed in it has been passed to log_write. */
    method Brelse(i: nat)
      requires Valid() && i < NBUF && bufs[i].locked
      requires uses[i] == 1 && pins[i] <= 0 && bufs[i].valid ==> bufs[i].data == disk[bufs[i].blockno]
      modifies `bufs, `uses, `next, `prev, `order
      ensures Valid() && uses == old(uses)[i := old(uses)[i] - 1]
      ensures bufs == old(bufs)[i := old(bufs)[i].(refcnt := Dec(old(bufs)[i].refcnt), locked := false)]
      ensures i in old(order) && order == if bufs[i].refcnt == 0 then MoveToFront(old(order), i) else old(order)
    {
      IncDec(uses[i] + pins[i], bufs[i].refcnt);
      SameFace(bufs, disk, img, i, Dec(bufs[i].refcnt), false);
      Pigeonhole(order, NBUF, i);
      bufs := bufs[i := bufs[i].(refcnt := Dec(bufs[i].refcnt), locked := false)];
      uses := uses[i := uses[i] - 1];
      if bufs[i].refcnt == 0 {
        Touch(i);
      }
    }
  }
}
