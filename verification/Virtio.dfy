/** The virtio disk driver's queue of eight descriptors: requests, the device and the interrupt handler as steps,
    each a region of code run under the driver's lock, or one step of the device. */
module Virtio {
  import Counters
  import opened Folding
  import opened Lists
  import opened Params

  const NUM: nat := 8
  const U16: nat := 65536

  /** What a descriptor's address refers to. */
  datatype Addr = Nowhere | Header(write: bool, sector: nat) | DataOf(b: nat) | StatusOf(h: nat)

  /** more is VRING_DESC_F_NEXT, dev is VRING_DESC_F_WRITE. */
  datatype Desc = Desc(addr: Addr, len: nat, more: bool, dev: bool, next: nat)

  datatype Info = Info(b: Option<nat>, status: int)

  /** Where a request is: in the available ring, with the device, in the used ring, or seen by the interrupt handler. */
  datatype Phase = Posted | Fetched | Used | Seen

  /** A request that holds descriptors: its buffer, what was asked for, its other two descriptors,
      and how often its buffer was woken. */
  datatype Req = Req(b: nat, blockno: nat, write: bool, i1: nat, i2: nat, phase: Phase, wakes: nat)

  datatype Chan = FreeDesc | Buf(b: nat)

  predicate ChainOk(desc: seq<Desc>, h: nat, r: Req) {
    && |desc| == NUM && h < NUM && r.i1 < NUM && r.i2 < NUM
    && desc[h] == Desc(Header(r.write, 2 * r.blockno), 16, true, false, r.i1)
    && desc[r.i1] == Desc(DataOf(r.b), BSIZE, true, !r.write, r.i2)
    && desc[r.i2] == Desc(StatusOf(h), 1, false, true, 0)
  }

  /** Request h owns its three descriptors, which form its chain; its buffer is busy until the handler has seen it. */
  ghost predicate ReqOk(desc: seq<Desc>, info: seq<Info>, owner: map<nat, nat>, busy: set<nat>, h: nat, r: Req) {
    && ChainOk(desc, h, r) && |info| == NUM
    && h != r.i1 && h != r.i2 && r.i1 != r.i2
    && h in owner && r.i1 in owner && r.i2 in owner && owner[h] == h && owner[r.i1] == h && owner[r.i2] == h
    && info[h].b == Some(r.b)
    && (r.b in busy <==> !r.phase.Seen?)
    && r.wakes == (if r.phase.Seen? then 1 else 0)
  }

  ghost predicate Holds(reqs: map<nat, Req>, h: nat, i: nat) {
    h in reqs && (i == h || i == reqs[h].i1 || i == reqs[h].i2)
  }

  ghost predicate OtherBuf(reqs: map<nat, Req>, h: nat, g: nat)
    requires h in reqs && g in reqs
  {
    h != g ==> reqs[h].b != reqs[g].b
  }

  ghost predicate Owned(free: seq<bool>, owner: map<nat, nat>, reqs: map<nat, Req>) {
    && |free| == NUM
    && (forall i {:trigger free[i]} | 0 <= i < NUM :: free[i] <==> i !in owner)
    && (forall i {:trigger Holds(reqs, owner[i], i)} | i in owner :: i < NUM && Holds(reqs, owner[i], i))
    && (forall h {:trigger h in reqs} | h in reqs :: h < NUM && h in owner)
    && |owner| == 3 * |reqs|
  }

  ghost predicate AllOk(desc: seq<Desc>, info: seq<Info>, owner: map<nat, nat>, busy: set<nat>, reqs: map<nat, Req>) {
    && (forall h {:trigger ReqOk(desc, info, owner, busy, h, reqs[h])} | h in reqs ::
         ReqOk(desc, info, owner, busy, h, reqs[h]))
    && (forall h, g {:trigger OtherBuf(reqs, h, g)} | h in reqs && g in reqs :: OtherBuf(reqs, h, g))
  }

  ghost predicate InQueue(reqs: map<nat, Req>, q: seq<nat>, phase: Phase, h: nat) {
    h in reqs && reqs[h].phase == phase ==> h in q
  }

  /** The requests in a phase are those queued in q, each once. */
  ghost predicate Queued(reqs: map<nat, Req>, q: seq<nat>, phase: Phase) {
    && (forall j {:trigger q[j]} | 0 <= j < |q| :: q[j] in reqs && reqs[q[j]].phase == phase)
    && (forall h {:trigger InQueue(reqs, q, phase, h)} | h in reqs :: InQueue(reqs, q, phase, h))
    && Distinct(q)
  }

  /** q, of at most two requests, is what a ring holds from index start on. */
  ghost predicate RingIs(ring: seq<nat>, start: nat, q: seq<nat>) {
    && |ring| == NUM && |q| <= 2
    && (|q| >= 1 ==> ring[start % NUM] == q[0])
    && (|q| == 2 ==> ring[(start + 1) % NUM] == q[1])
  }

  ghost function FreeSet(free: seq<bool>): set<nat> { set i: nat | i < |free| && free[i] }

  lemma Parts(f: set<nat>, k: set<nat>, n: nat)
    requires (forall i: nat :: i < n <==> i in f || i in k) && f !! k
    ensures |f| + |k| == n
  {
    assert f + k == Below(n);
  }

  /** Descriptor conservation: three for each request, the rest free. */
  lemma Conservation(free: seq<bool>, owner: map<nat, nat>, reqs: map<nat, Req>)
    requires Owned(free, owner, reqs)
    ensures |FreeSet(free)| + 3 * |reqs| == NUM && |reqs| <= 2
  {
    var f, k := FreeSet(free), owner.Keys;
    forall i | i in owner
      ensures i < NUM
    {
      assert Holds(reqs, owner[i], i);
    }
    Parts(f, k, NUM);
  }

  /** So at most two requests are queued anywhere. */
  lemma FewQueued(free: seq<bool>, owner: map<nat, nat>, reqs: map<nat, Req>, q: seq<nat>, phase: Phase)
    requires Owned(free, owner, reqs) && Queued(reqs, q, phase)
    ensures |q| <= |reqs| <= 2
  {
    Conservation(free, owner, reqs);
    DistinctSize(q);
    SubsetSize(Elems(q), reqs.Keys);
  }

  lemma ModShift(a: nat, b: nat, j: nat)
    requires a % 8 == b % 8
    ensures (a + j) % 8 == (b + j) % 8
  {
    var d := (a + j) / 8 - a / 8 + b / 8;
    assert b + j == 8 * d + (a + j) % 8;
  }

  lemma RingPush(ring: seq<nat>, start: nat, q: seq<nat>, h: nat)
    requires RingIs(ring, start, q) && |q| < 2
    ensures RingIs(ring[(start + |q|) % NUM := h], start, q + [h])
  {
  }

  lemma RingPop(ring: seq<nat>, start: nat, q: seq<nat>)
    requires RingIs(ring, start, q) && q != []
    ensures ring[start % NUM] == q[0] && RingIs(ring, start + 1, q[1..])
  {
  }

  /** A ring only knows where it starts modulo NUM. */
  lemma RingMod(ring: seq<nat>, start: nat, start': nat, q: seq<nat>)
    requires RingIs(ring, start, q) && start' % NUM == start % NUM
    ensures RingIs(ring, start', q)
  {
    ModShift(start, start', 1);
  }

  /** With fewer than NUM completions unseen, equal indices mean that none is. */
  lemma NoAlias(used_idx: nat, id: nat, n: nat)
    requires n < NUM && id % NUM == (used_idx + n) % NUM
    ensures used_idx % NUM == id % NUM <==> n == 0
  {
  }

  // ---- Requests through their phases

  /** Moving a request to another phase keeps who owns what. */
  lemma MoveOwned(free: seq<bool>, owner: map<nat, nat>, reqs: map<nat, Req>, h: nat, r: Req)
    requires Owned(free, owner, reqs) && h in reqs && r.i1 == reqs[h].i1 && r.i2 == reqs[h].i2
    ensures Owned(free, owner, reqs[h := r])
  {
    forall i | i in owner
      ensures i < NUM && Holds(reqs[h := r], owner[i], i)
    {
      assert Holds(reqs, owner[i], i);
    }
    assert reqs[h := r].Keys == reqs.Keys;
    assert |reqs[h := r].Keys| == |reqs.Keys|;
  }

  lemma MoveOk(desc: seq<Desc>, info: seq<Info>, info': seq<Info>, owner: map<nat, nat>, busy: set<nat>,
               busy': set<nat>,
               reqs: map<nat, Req>, h: nat, r: Req)
    requires AllOk(desc, info, owner, busy, reqs) && h in reqs && r.b == reqs[h].b
    requires ReqOk(desc, info', owner, busy', h, r)
    requires |info'| == |info| && forall g {:trigger info'[g]} | 0 <= g < |info| && g != h :: info'[g] == info[g]
    requires forall b {:trigger b in busy'} | b != r.b :: b in busy' <==> b in busy
    ensures AllOk(desc, info', owner, busy', reqs[h := r])
  {
    var reqs' := reqs[h := r];
    forall g | g in reqs'
      ensures ReqOk(desc, info', owner, busy', g, reqs'[g])
    {
      if g != h {
        assert OtherBuf(reqs, g, h) && ReqOk(desc, info, owner, busy, g, reqs[g]);
      }
    }
    forall g, k | g in reqs' && k in reqs'
      ensures OtherBuf(reqs', g, k)
    {
      assert OtherBuf(reqs, g, k);
    }
  }

  /** Leaving the head of a queue. */
  lemma QueuePop(reqs: map<nat, Req>, q: seq<nat>, phase: Phase, r: Req)
    requires Queued(reqs, q, phase) && q != [] && r.phase != phase
    ensures Queued(reqs[q[0] := r], q[1..], phase)
  {
    var reqs' := reqs[q[0] := r];
    forall h | h in reqs'
      ensures InQueue(reqs', q[1..], phase, h)
    {
      assert h != q[0] ==> InQueue(reqs, q, phase, h);
    }
  }

  /** Joining the tail of a queue. */
  lemma QueuePush(reqs: map<nat, Req>, q: seq<nat>, phase: Phase, h: nat, r: Req)
    requires Queued(reqs, q, phase) && r.phase == phase && (h in reqs ==> reqs[h].phase != phase)
    ensures Queued(reqs[h := r], q + [h], phase)
  {
    var reqs', q' := reqs[h := r], q + [h];
    forall g | g in reqs'
      ensures InQueue(reqs', q', phase, g)
    {
      assert g != h ==> InQueue(reqs, q, phase, g);
    }
  }

  /** A queue does not see moves between other phases. */
  lemma QueueKeep(reqs: map<nat, Req>, q: seq<nat>, phase: Phase, h: nat, r: Req)
    requires Queued(reqs, q, phase) && r.phase != phase && (h in reqs ==> reqs[h].phase != phase)
    ensures Queued(reqs[h := r], q, phase)
  {
    var reqs' := reqs[h := r];
    forall g | g in reqs'
      ensures InQueue(reqs', q, phase, g)
    {
      assert g != h ==> InQueue(reqs, q, phase, g);
    }
  }

  /** A sleeper for descriptors finds fewer than three; a sleeper on a buffer finds it busy. */
  ghost predicate SleepOk(sleepers: map<nat, Chan>, free: seq<bool>, busy: set<nat>) {
    forall p {:trigger sleepers[p]} | p in sleepers ::
      match sleepers[p]
      case FreeDesc => |FreeSet(free)| < 3
      case Buf(b) => b in busy
  }

  /** wakeup. */
  function Woken(sleepers: map<nat, Chan>, c: Chan): (r: map<nat, Chan>)
    ensures c !in r.Values && forall p | p in sleepers :: sleepers[p] == c || (p in r && r[p] == sleepers[p])
  {
    map p | p in sleepers && sleepers[p] != c :: sleepers[p]
  }

  ghost predicate TablesOk(desc: seq<Desc>, free: seq<bool>, info: seq<Info>, owner: map<nat, nat>, busy: set<nat>,
                           reqs: map<nat, Req>) {
    && |desc| == NUM == |info|
    && Owned(free, owner, reqs) && AllOk(desc, info, owner, busy, reqs)
  }

  ghost predicate AvailOk(reqs: map<nat, Req>, avail: seq<nat>, last: nat, idx: nat, posted: seq<nat>) {
    && last < U16
    && Queued(reqs, posted, Posted) && RingIs(avail, last, posted) && idx == (last + |posted|) % U16
  }

  ghost predicate UsedOk(reqs: map<nat, Req>, elems: seq<nat>, usedIdx: nat, usedId: nat, done: seq<nat>) {
    && usedIdx < NUM && usedId < U16
    && Queued(reqs, done, Used) && RingIs(elems, usedIdx, done) && usedId % NUM == (usedIdx + |done|) % NUM
  }

  lemma UsedPop(reqs: map<nat, Req>, elems: seq<nat>, usedIdx: nat, usedId: nat, done: seq<nat>, r: Req)
    requires UsedOk(reqs, elems, usedIdx, usedId, done) && done != [] && r.phase != Used
    ensures elems[usedIdx] == done[0] && UsedOk(reqs[done[0] := r], elems, (usedIdx + 1) % NUM, usedId, done[1..])
  {
    RingPop(elems, usedIdx, done);
    QueuePop(reqs, done, Used, r);
    RingMod(elems, usedIdx + 1, (usedIdx + 1) % NUM, done[1..]);
    ModShift(usedIdx + 1, (usedIdx + 1) % NUM, |done| - 1);
  }

  lemma Mod16(x: nat)
    ensures x % 65536 % 8 == x % 8
  {
    var q, r := x / 65536, x % 65536;
    Counters.Div8(x, 8192 * q + r / 8, r % 8);
  }

  lemma UsedPush(reqs: map<nat, Req>, elems: seq<nat>, usedIdx: nat, usedId: nat, done: seq<nat>, h: nat, r: Req)
    requires UsedOk(reqs, elems, usedIdx, usedId, done) && |done| < 2 && r.phase == Used
    requires (h in reqs ==> reqs[h].phase != Used)
    ensures UsedOk(reqs[h := r], elems[usedId % NUM := h], usedIdx, (usedId + 1) % U16, done + [h])
  {
    RingPush(elems, usedIdx, done, h);
    QueuePush(reqs, done, Used, h, r);
    ModShift(usedId, usedIdx + |done|, 1);
    Mod16(usedId + 1);
  }

  lemma AvailPop(reqs: map<nat, Req>, avail: seq<nat>, last: nat, idx: nat, posted: seq<nat>, r: Req)
    requires AvailOk(reqs, avail, last, idx, posted) && posted != [] && r.phase != Posted
    ensures avail[last % NUM] == posted[0] && AvailOk(reqs[posted[0] := r], avail, (last + 1) % U16, idx, posted[1..])
  {
    RingPop(avail, last, posted);
    QueuePop(reqs, posted, Posted, r);
    Mod16(last + 1);
    RingMod(avail, last + 1, (last + 1) % U16, posted[1..]);
  }

  lemma AvailPush(reqs: map<nat, Req>, avail: seq<nat>, last: nat, idx: nat, posted: seq<nat>, h: nat, r: Req)
    requires AvailOk(reqs, avail, last, idx, posted) && |posted| < 2 && r.phase == Posted
    requires (h in reqs ==> reqs[h].phase != Posted)
    ensures AvailOk(reqs[h := r], avail[idx % NUM := h], last, (idx + 1) % U16, posted + [h])
  {
    RingPush(avail, last, posted, h);
    QueuePush(reqs, posted, Posted, h, r);
    Mod16(last + |posted|);
  }

  /** Moving a request, with what may change beside it, keeps the tables. */
  lemma MoveTables(desc: seq<Desc>, free: seq<bool>, info: seq<Info>, info': seq<Info>, owner: map<nat, nat>,
                   busy: set<nat>, busy': set<nat>,
                   reqs: map<nat, Req>, h: nat, r: Req)
    requires TablesOk(desc, free, info, owner, busy, reqs) && h in reqs && r.b == reqs[h].b && r.i1 == reqs[h].i1
    requires r.i2 == reqs[h].i2
    requires ReqOk(desc, info', owner, busy', h, r)
    requires |info'| == |info| && forall g {:trigger info'[g]} | 0 <= g < |info| && g != h :: info'[g] == info[g]
    requires forall b {:trigger b in busy'} | b != r.b :: b in busy' <==> b in busy
    ensures TablesOk(desc, free, info', owner, busy', reqs[h := r])
  {
    MoveOwned(free, owner, reqs, h, r);
    MoveOk(desc, info, info', owner, busy, busy', reqs, h, r);
  }

  lemma WakeOk(sleepers: map<nat, Chan>, free: seq<bool>, busy: set<nat>, b: nat)
    requires SleepOk(sleepers, free, busy)
    ensures SleepOk(Woken(sleepers, Buf(b)), free, busy - {b})
  {
    forall p | p in Woken(sleepers, Buf(b))
      ensures sleepers[p].Buf? ==> sleepers[p].b != b
    {
    }
  }

  lemma AvailKeep(reqs: map<nat, Req>, avail: seq<nat>, last: nat, idx: nat, posted: seq<nat>, h: nat, r: Req)
    requires AvailOk(reqs, avail, last, idx, posted) && r.phase != Posted && (h in reqs ==> reqs[h].phase != Posted)
    ensures AvailOk(reqs[h := r], avail, last, idx, posted)
  {
    QueueKeep(reqs, posted, Posted, h, r);
  }

  lemma UsedKeep(reqs: map<nat, Req>, elems: seq<nat>, usedIdx: nat, usedId: nat, done: seq<nat>, h: nat, r: Req)
    requires UsedOk(reqs, elems, usedIdx, usedId, done) && r.phase != Used && (h in reqs ==> reqs[h].phase != Used)
    ensures UsedOk(reqs[h := r], elems, usedIdx, usedId, done)
  {
    QueueKeep(reqs, done, Used, h, r);
  }

  // ---- The whole state

  /** struct disk, with the buffers' disk flags, the sleeping processes, and the device's place in the
      available ring. */
  datatype State = State(desc: seq<Desc>, free: seq<bool>, info: seq<Info>, avail: seq<nat>, availIdx: nat,
                         elems: seq<nat>,
                         usedId: nat, usedIdx: nat, busy: set<nat>, sleepers: map<nat, Chan>, lastAvail: nat)

  /** The requests under way, who owns which descriptor, and the queues in the two rings. */
  datatype Book = Book(reqs: map<nat, Req>, owner: map<nat, nat>, posted: seq<nat>, done: seq<nat>)

  ghost predicate Inv(d: State, g: Book) {
    && TablesOk(d.desc, d.free, d.info, g.owner, d.busy, g.reqs)
    && AvailOk(g.reqs, d.avail, d.lastAvail, d.availIdx, g.posted)
    && UsedOk(g.reqs, d.elems, d.usedIdx, d.usedId, g.done)
    && SleepOk(d.sleepers, d.free, d.busy)
  }

  /** The handler has seen the request, and woken its buffer once more. */
  function SeenReq(r: Req): Req { r.(phase := Seen, wakes := r.wakes + 1) }

  /** The handler's view of the next completion. */
  lemma SeeKeeps(d: State, g: Book)
    requires Inv(d, g) && g.done != []
    ensures d.usedIdx < |d.elems| && d.elems[d.usedIdx] == g.done[0] && g.done[0] < |d.info| && g.done[0] in g.reqs
    ensures d.info[g.done[0]].b == Some(g.reqs[g.done[0]].b) && g.reqs[g.done[0]].phase == Used
    ensures var h := g.done[0];
            var b := g.reqs[h].b;
            Inv(d.(busy := d.busy - {b}, sleepers := Woken(d.sleepers, Buf(b)), usedIdx := (d.usedIdx + 1) % NUM),
                g.(reqs := g.reqs[h := SeenReq(g.reqs[h])], done := g.done[1..]))
  {
    var h := g.done[0];
    var r := g.reqs[h];
    var r' := SeenReq(r);
    assert ReqOk(d.desc, d.info, g.owner, d.busy, h, r);
    UsedPop(g.reqs, d.elems, d.usedIdx, d.usedId, g.done, r');
    MoveTables(d.desc, d.free, d.info, d.info, g.owner, d.busy, d.busy - {r.b}, g.reqs, h, r');
    AvailKeep(g.reqs, d.avail, d.lastAvail, d.availIdx, g.posted, h, r');
    WakeOk(d.sleepers, d.free, d.busy, r.b);
  }

  /** The device's view of the next chain: just what was asked for. */
  lemma FetchKeeps(d: State, g: Book)
    requires Inv(d, g) && g.posted != []
    ensures |d.avail| == NUM && d.avail[d.lastAvail % NUM] == g.posted[0] && g.posted[0] in g.reqs
    ensures ChainOk(d.desc, g.posted[0], g.reqs[g.posted[0]]) && g.reqs[g.posted[0]].phase == Posted
    ensures var h := g.posted[0];
            Inv(d.(lastAvail := (d.lastAvail + 1) % U16),
                g.(reqs := g.reqs[h := g.reqs[h].(phase := Fetched)], posted := g.posted[1..]))
  {
    var h := g.posted[0];
    var r := g.reqs[h];
    var r' := r.(phase := Fetched);
    assert ReqOk(d.desc, d.info, g.owner, d.busy, h, r);
    AvailPop(g.reqs, d.avail, d.lastAvail, d.availIdx, g.posted, r');
    MoveTables(d.desc, d.free, d.info, d.info, g.owner, d.busy, d.busy, g.reqs, h, r');
    UsedKeep(g.reqs, d.elems, d.usedIdx, d.usedId, g.done, h, r');
  }

  lemma RoomInRing(free: seq<bool>, owner: map<nat, nat>, reqs: map<nat, Req>, q: seq<nat>, phase: Phase, h: nat)
    requires Owned(free, owner, reqs) && Queued(reqs, q, phase) && h in reqs && h !in q
    ensures |q| < 2
  {
    Conservation(free, owner, reqs);
    DistinctSize(q);
    SubsetSize(Elems(q), reqs.Keys - {h});
  }

  lemma CompleteKeeps(d: State, g: Book, h: nat, status: int)
    requires Inv(d, g) && h in g.reqs && g.reqs[h].phase == Fetched
    ensures |d.elems| == NUM && |d.info| == NUM && h < NUM && ChainOk(d.desc, h, g.reqs[h])
    ensures Inv(d.(info := d.info[h := d.info[h].(status := status)], elems := d.elems[d.usedId % NUM := h],
                   usedId := (d.usedId + 1) % U16),
                g.(reqs := g.reqs[h := g.reqs[h].(phase := Used)], done := g.done + [h]))
  {
    var r := g.reqs[h];
    var r' := r.(phase := Used);
    assert ReqOk(d.desc, d.info, g.owner, d.busy, h, r);
    RoomInRing(d.free, g.owner, g.reqs, g.done, Used, h);
    UsedPush(g.reqs, d.elems, d.usedIdx, d.usedId, g.done, h, r');
    MoveTables(d.desc, d.free, d.info, d.info[h := d.info[h].(status := status)], g.owner, d.busy, d.busy, g.reqs, h,
               r');
    AvailKeep(g.reqs, d.avail, d.lastAvail, d.availIdx, g.posted, h, r');
  }

  // ---- Descriptors taken and given back

  /** free_desc on a descriptor in use. */
  function Released(d: State, i: nat): State
    requires i < |d.desc| && i < |d.free|
  {
    d.(desc := d.desc[i := d.desc[i].(addr := Nowhere)], free := d.free[i := true],
       sleepers := Woken(d.sleepers, FreeDesc))
  }

  /** Only descriptors that are free have changed, and only sleepers for descriptors were woken. */
  ghost predicate Spoiled(d: State, d': State) {
    && d' == d.(desc := d'.desc, sleepers := d'.sleepers) && |d'.desc| == |d.desc|
    && (forall i {:trigger d'.desc[i]} | 0 <= i < |d.desc| && i < |d.free| && !d.free[i] :: d'.desc[i] == d.desc[i])
    && (d'.sleepers == d.sleepers || d'.sleepers == Woken(d.sleepers, FreeDesc))
  }

  lemma SpoiledKeeps(d: State, d': State, g: Book)
    requires Inv(d, g) && Spoiled(d, d')
    ensures Inv(d', g)
  {
    forall h | h in g.reqs
      ensures ReqOk(d'.desc, d'.info, g.owner, d'.busy, h, g.reqs[h])
    {
      assert ReqOk(d.desc, d.info, g.owner, d.busy, h, g.reqs[h]);
      var r := g.reqs[h];
      assert !d.free[h] && !d.free[r.i1] && !d.free[r.i2];
    }
    assert AllOk(d'.desc, d'.info, g.owner, d'.busy, g.reqs);
    assert SleepOk(d'.sleepers, d'.free, d'.busy);
  }

  /** The state once a request on descriptors i0, i1, i2 has been posted and its process sleeps on its buffer. */
  function PostedOn(d: State, p: nat, b: nat, blockno: nat, write: bool, i0: nat, i1: nat, i2: nat): State
    requires |d.desc| == NUM && |d.info| == NUM && |d.avail| == NUM && |d.free| == NUM && i0 < NUM && i1 < NUM
    requires i2 < NUM
  {
    d.(free := d.free[i0 := false][i1 := false][i2 := false],
       desc := d.desc[i0 := Desc(Header(write, 2 * blockno), 16, true, false, i1)]
                     [i1 := Desc(DataOf(b), BSIZE, true, !write, i2)]
                     [i2 := Desc(StatusOf(i0), 1, false, true, 0)],
       info := d.info[i0 := Info(Some(b), 0)], busy := d.busy + {b},
       avail := d.avail[d.availIdx % NUM := i0], availIdx := (d.availIdx + 1) % U16,
       sleepers := d.sleepers[p := Buf(b)])
  }

  ghost function Booked(g: Book, b: nat, blockno: nat, write: bool, i0: nat, i1: nat, i2: nat): Book {
    g.(reqs := g.reqs[i0 := Req(b, blockno, write, i1, i2, Posted, 0)],
       owner := g.owner[i0 := i0][i1 := i0][i2 := i0], posted := g.posted + [i0])
  }

  lemma OneMore<T>(m: map<nat, T>, k: nat, v: T)
    requires k !in m
    ensures |m[k := v]| == |m| + 1
  {
    assert m[k := v].Keys == m.Keys + {k};
  }

  lemma PostOwned(free: seq<bool>, owner: map<nat, nat>, reqs: map<nat, Req>, i0: nat, r: Req)
    requires Owned(free, owner, reqs) && i0 < NUM && r.i1 < NUM && r.i2 < NUM && i0 != r.i1 && i0 != r.i2
    requires r.i1 != r.i2
    requires free[i0] && free[r.i1] && free[r.i2]
    ensures i0 !in reqs
    ensures Owned(free[i0 := false][r.i1 := false][r.i2 := false], owner[i0 := i0][r.i1 := i0][r.i2 := i0],
                  reqs[i0 := r])
  {
    var owner', reqs' := owner[i0 := i0][r.i1 := i0][r.i2 := i0], reqs[i0 := r];
    assert i0 !in reqs;
    forall i | i in owner'
      ensures i < NUM && Holds(reqs', owner'[i], i)
    {
      if i != i0 && i != r.i1 && i != r.i2 {
        assert Holds(reqs, owner[i], i);
      }
    }
    OneMore(owner, i0, i0);
    OneMore(owner[i0 := i0], r.i1, i0);
    OneMore(owner[i0 := i0][r.i1 := i0], r.i2, i0);
    OneMore(reqs, i0, r);
  }

  lemma OneLess<T>(m: map<nat, T>, k: nat)
    requires k in m
    ensures |m - {k}| == |m| - 1
  {
    assert (m - {k}).Keys == m.Keys - {k};
  }

  lemma PostOk(d: State, g: Book, p: nat, b: nat, blockno: nat, write: bool, i0: nat, i1: nat, i2: nat)
    requires Inv(d, g) && i0 < NUM && i1 < NUM && i2 < NUM && i0 != i1 && i0 != i2 && i1 != i2
    requires d.free[i0] && d.free[i1] && d.free[i2] && b !in d.busy && forall h | h in g.reqs :: g.reqs[h].b != b
    ensures var d', g' := PostedOn(d, p, b, blockno, write, i0, i1, i2), Booked(g, b, blockno, write, i0, i1, i2);
            AllOk(d'.desc, d'.info, g'.owner, d'.busy, g'.reqs)
  {
    var d', g' := PostedOn(d, p, b, blockno, write, i0, i1, i2), Booked(g, b, blockno, write, i0, i1, i2);
    forall h | h in g'.reqs
      ensures ReqOk(d'.desc, d'.info, g'.owner, d'.busy, h, g'.reqs[h])
    {
      if h != i0 {
        assert ReqOk(d.desc, d.info, g.owner, d.busy, h, g.reqs[h]);
        var r := g.reqs[h];
        assert !d.free[h] && !d.free[r.i1] && !d.free[r.i2];
      }
    }
    forall h, k | h in g'.reqs && k in g'.reqs
      ensures OtherBuf(g'.reqs, h, k)
    {
      assert h != i0 && k != i0 ==> OtherBuf(g.reqs, h, k);
    }
  }

  lemma PostTables(d: State, g: Book, p: nat, b: nat, blockno: nat, write: bool, i0: nat, i1: nat, i2: nat)
    requires Inv(d, g) && i0 < NUM && i1 < NUM && i2 < NUM && i0 != i1 && i0 != i2 && i1 != i2
    requires d.free[i0] && d.free[i1] && d.free[i2] && b !in d.busy && forall h | h in g.reqs :: g.reqs[h].b != b
    ensures i0 !in g.reqs
    ensures var d', g' := PostedOn(d, p, b, blockno, write, i0, i1, i2), Booked(g, b, blockno, write, i0, i1, i2);
            TablesOk(d'.desc, d'.free, d'.info, g'.owner, d'.busy, g'.reqs)
  {
    PostOwned(d.free, g.owner, g.reqs, i0, Req(b, blockno, write, i1, i2, Posted, 0));
    PostOk(d, g, p, b, blockno, write, i0, i1, i2);
  }

  lemma FewerFree(free: seq<bool>, i0: nat, i1: nat, i2: nat)
    requires |free| == NUM && i0 < NUM && i1 < NUM && i2 < NUM
    ensures |FreeSet(free[i0 := false][i1 := false][i2 := false])| <= |FreeSet(free)|
  {
    SubsetSize(FreeSet(free[i0 := false][i1 := false][i2 := false]), FreeSet(free));
  }

  lemma PostRings(d: State, g: Book, i0: nat, r: Req)
    requires Inv(d, g) && i0 !in g.reqs && |g.reqs| <= 1 && r.phase == Posted
    ensures |d.avail| == NUM
    ensures AvailOk(g.reqs[i0 := r], d.avail[d.availIdx % NUM := i0], d.lastAvail, (d.availIdx + 1) % U16,
                    g.posted + [i0])
    ensures UsedOk(g.reqs[i0 := r], d.elems, d.usedIdx, d.usedId, g.done)
  {
    FewQueued(d.free, g.owner, g.reqs, g.posted, Posted);
    AvailPush(g.reqs, d.avail, d.lastAvail, d.availIdx, g.posted, i0, r);
    UsedKeep(g.reqs, d.elems, d.usedIdx, d.usedId, g.done, i0, r);
  }

  lemma PostSleep(sleepers: map<nat, Chan>, free: seq<bool>, free': seq<bool>, busy: set<nat>, p: nat, b: nat)
    requires SleepOk(sleepers, free, busy) && |FreeSet(free')| <= |FreeSet(free)|
    ensures SleepOk(sleepers[p := Buf(b)], free', busy + {b})
  {
    assert forall q | q in sleepers && sleepers[q] == FreeDesc :: |FreeSet(free)| < 3;
  }

  /** Posting keeps the invariant; there is room in the ring because the descriptors were free. */
  lemma PostKeeps(d: State, g: Book, p: nat, b: nat, blockno: nat, write: bool, i0: nat, i1: nat, i2: nat)
    requires Inv(d, g) && i0 < NUM && i1 < NUM && i2 < NUM && i0 != i1 && i0 != i2 && i1 != i2 && p !in d.sleepers
    requires d.free[i0] && d.free[i1] && d.free[i2] && b !in d.busy && forall h | h in g.reqs :: g.reqs[h].b != b
    requires |g.reqs| <= 1
    ensures i0 !in g.reqs
    ensures Inv(PostedOn(d, p, b, blockno, write, i0, i1, i2), Booked(g, b, blockno, write, i0, i1, i2))
  {
    var r := Req(b, blockno, write, i1, i2, Posted, 0);
    PostTables(d, g, p, b, blockno, write, i0, i1, i2);
    PostRings(d, g, i0, r);
    FewerFree(d.free, i0, i1, i2);
    PostSleep(d.sleepers, d.free, d.free[i0 := false][i1 := false][i2 := false], d.busy, p, b);
  }

  // ---- A request's end

  /** The state once request h has been taken out of info[] and its chain freed. */
  function FreedOf(d: State, h: nat, i1: nat, i2: nat): State
    requires |d.desc| == NUM && |d.info| == NUM && |d.free| == NUM && h < NUM && i1 < NUM && i2 < NUM
  {
    Released(Released(Released(d.(info := d.info[h := d.info[h].(b := None)]), h), i1), i2)
  }

  ghost function Closed(g: Book, h: nat): Book
    requires h in g.reqs
  {
    g.(reqs := g.reqs - {h}, owner := g.owner - {h} - {g.reqs[h].i1} - {g.reqs[h].i2})
  }

  lemma CloseOwned(free: seq<bool>, owner: map<nat, nat>, reqs: map<nat, Req>, h: nat)
    requires Owned(free, owner, reqs) && h in reqs && h < NUM && reqs[h].i1 < NUM && reqs[h].i2 < NUM
    requires h != reqs[h].i1 && h != reqs[h].i2 && reqs[h].i1 != reqs[h].i2
    requires reqs[h].i1 in owner && reqs[h].i2 in owner && owner[h] == h && owner[reqs[h].i1] == h
    requires owner[reqs[h].i2] == h
    requires forall k {:trigger k in reqs} | k in reqs && k != h :: owner[k] == k
    ensures Owned(free[h := true][reqs[h].i1 := true][reqs[h].i2 := true], owner - {h} - {reqs[h].i1} - {reqs[h].i2},
                  reqs - {h})
  {
    var i1, i2 := reqs[h].i1, reqs[h].i2;
    var owner', reqs' := owner - {h} - {i1} - {i2}, reqs - {h};
    forall i | i in owner'
      ensures i < NUM && Holds(reqs', owner'[i], i)
    {
      assert Holds(reqs, owner[i], i);
    }
    OneLess(owner, h);
    OneLess(owner - {h}, i1);
    OneLess(owner - {h} - {i1}, i2);
    OneLess(reqs, h);
  }

  lemma CloseOk(d: State, g: Book, h: nat)
    requires Inv(d, g) && h in g.reqs && g.reqs[h].phase == Seen
    ensures h < NUM && g.reqs[h].i1 < NUM && g.reqs[h].i2 < NUM
    ensures var d', g' := FreedOf(d, h, g.reqs[h].i1, g.reqs[h].i2), Closed(g, h);
            AllOk(d'.desc, d'.info, g'.owner, d'.busy, g'.reqs)
  {
    var r := g.reqs[h];
    assert ReqOk(d.desc, d.info, g.owner, d.busy, h, r);
    var d', g' := FreedOf(d, h, r.i1, r.i2), Closed(g, h);
    forall k | k in g'.reqs
      ensures ReqOk(d'.desc, d'.info, g'.owner, d'.busy, k, g'.reqs[k])
    {
      assert ReqOk(d.desc, d.info, g.owner, d.busy, k, g.reqs[k]);
    }
    forall j, k | j in g'.reqs && k in g'.reqs
      ensures OtherBuf(g'.reqs, j, k)
    {
      assert OtherBuf(g.reqs, j, k);
    }
  }

  lemma CloseTables(d: State, g: Book, h: nat)
    requires Inv(d, g) && h in g.reqs && g.reqs[h].phase == Seen
    ensures h < NUM && g.reqs[h].i1 < NUM && g.reqs[h].i2 < NUM
    ensures var d', g' := FreedOf(d, h, g.reqs[h].i1, g.reqs[h].i2), Closed(g, h);
            TablesOk(d'.desc, d'.free, d'.info, g'.owner, d'.busy, g'.reqs)
  {
    CloseOk(d, g, h);
    assert ReqOk(d.desc, d.info, g.owner, d.busy, h, g.reqs[h]);
    forall k | k in g.reqs && k != h
      ensures g.owner[k] == k
    {
      assert ReqOk(d.desc, d.info, g.owner, d.busy, k, g.reqs[k]);
    }
    CloseOwned(d.free, g.owner, g.reqs, h);
  }

  lemma QueueDrop(reqs: map<nat, Req>, q: seq<nat>, phase: Phase, h: nat)
    requires Queued(reqs, q, phase) && h in reqs && reqs[h].phase != phase
    ensures Queued(reqs - {h}, q, phase)
  {
    forall g | g in reqs - {h}
      ensures InQueue(reqs - {h}, q, phase, g)
    {
      assert InQueue(reqs, q, phase, g);
    }
  }

  lemma Known(d: State, g: Book, h: nat)
    requires Inv(d, g) && h in g.reqs
    ensures var r := g.reqs[h];
            && |d.free| == NUM && |d.info| == NUM && ChainOk(d.desc, h, r) && h != r.i1 && h != r.i2 && r.i1 != r.i2
            && !d.free[h] && !d.free[r.i1] && !d.free[r.i2] && d.info[h].b == Some(r.b)
            && (r.b in d.busy <==> !r.phase.Seen?)
  {
    assert ReqOk(d.desc, d.info, g.owner, d.busy, h, g.reqs[h]);
  }

  /** A request that the handler has seen can be closed. */
  lemma CloseKeeps(d: State, g: Book, h: nat)
    requires Inv(d, g) && h in g.reqs && g.reqs[h].phase == Seen
    ensures h < NUM && g.reqs[h].i1 < NUM && g.reqs[h].i2 < NUM
    ensures Inv(FreedOf(d, h, g.reqs[h].i1, g.reqs[h].i2), Closed(g, h))
  {
    CloseTables(d, g, h);
    QueueDrop(g.reqs, g.posted, Posted, h);
    QueueDrop(g.reqs, g.done, Used, h);
    assert SleepOk(FreedOf(d, h, g.reqs[h].i1, g.reqs[h].i2).sleepers, FreedOf(d, h, g.reqs[h].i1, g.reqs[h].i2).free,
                   d.busy);
  }

  /** What the device makes of a chain. */
  datatype Job = Job(head: nat, write: bool, sector: nat, b: nat, status: nat)

  /** What is free is what was, but for those taken. */
  ghost predicate TakenFrom(free0: seq<bool>, free: seq<bool>, idx: seq<nat>) {
    |free| == |free0| && forall k: nat {:trigger free[k]} | k < |free| :: free[k] <==> free0[k] && k !in idx
  }

  lemma AllTaken(free0: seq<bool>, free: seq<bool>, idx: seq<nat>)
    requires TakenFrom(free0, free, idx) && FreeSet(free) == {} && |idx| < 3
    ensures |FreeSet(free0)| < 3
  {
    forall k: nat | k < |free0| && free0[k]
      ensures k in idx
    {
      assert k !in FreeSet(free);
      assert !free[k];
    }
    ElemsBound(idx);
    SubsetSize(FreeSet(free0), Elems(idx));
  }

  lemma ThreeTaken(free0: seq<bool>, free: seq<bool>, idx: seq<nat>)
    requires TakenFrom(free0, free, idx) && |idx| == 3 && Distinct(idx)
    requires forall j {:trigger idx[j]} | 0 <= j < 3 :: idx[j] < |free0| && free0[idx[j]]
    ensures free == free0[idx[0] := false][idx[1] := false][idx[2] := false] && |FreeSet(free0)| >= 3
  {
    DistinctSize(idx);
    SubsetSize(Elems(idx), FreeSet(free0));
  }

  lemma BackOne(free0: seq<bool>, free: seq<bool>, idx: seq<nat>, j: nat)
    requires j < |idx| && Distinct(idx) && TakenFrom(free0, free, idx[j..]) && idx[j] < |free0| && free0[idx[j]]
    ensures TakenFrom(free0, free[idx[j] := true], idx[j + 1..])
  {
    forall k: nat | k < |free|
      ensures free[idx[j] := true][k] <==> free0[k] && k !in idx[j + 1..]
    {
      assert k in idx[j..] <==> k == idx[j] || k in idx[j + 1..];
    }
  }

  lemma Unbook(reqs: map<nat, Req>, h: nat, r: Req)
    requires h !in reqs
    ensures reqs[h := r] - {h} == reqs
  {
  }

  ghost predicate AllGood(info: seq<Info>, done: seq<nat>) {
    forall j {:trigger done[j]} | 0 <= j < |done| :: done[j] < |info| && info[done[j]].status == 0
  }

  /** Requests that were in the used ring and are no longer in `done` have been seen, each with one wakeup. */
  ghost predicate SomeSeen(reqs0: map<nat, Req>, reqs: map<nat, Req>, done: seq<nat>) {
    && reqs.Keys == reqs0.Keys
    && forall h {:trigger reqs[h]} | h in reqs0 ::
         reqs[h] == if reqs0[h].phase == Used && h !in done then SeenReq(reqs0[h]) else reqs0[h]
  }

  ghost predicate AllSeen(reqs0: map<nat, Req>, reqs: map<nat, Req>) {
    SomeSeen(reqs0, reqs, [])
  }

  /** The handler's test: the indices differ exactly when a completion is waiting. */
  ghost predicate More(d: State, g: Book) {
    g.done != [] <==> d.usedIdx % NUM != d.usedId % NUM
  }

  lemma Unmoved(d: State, g: Book)
    requires Inv(d, g)
    ensures SomeSeen(g.reqs, g.reqs, g.done) && More(d, g) && Queued(g.reqs, g.done, Used)
  {
    NoAlias(d.usedIdx, d.usedId, |g.done|);
    forall h | h in g.reqs && g.reqs[h].phase == Used
      ensures h in g.done
    {
      assert InQueue(g.reqs, g.done, Used, h);
    }
  }

  lemma GoodNext(info: seq<Info>, done: seq<nat>)
    requires done != []
    ensures AllGood(info, done) <==> done[0] < |info| && info[done[0]].status == 0 && AllGood(info, done[1..])
  {
    if AllGood(info, done[1..]) && done[0] < |info| && info[done[0]].status == 0 {
      forall j | 0 <= j < |done|
        ensures done[j] < |info| && info[done[j]].status == 0
      {
        assert j > 0 ==> done[1..][j - 1] == done[j];
      }
    }
    if AllGood(info, done) {
      assert forall j | 0 <= j < |done| - 1 :: done[1..][j] == done[j + 1];
    }
  }

  lemma SeenNext(reqs0: map<nat, Req>, reqs: map<nat, Req>, reqs': map<nat, Req>, done: seq<nat>)
    requires SomeSeen(reqs0, reqs, done) && done != [] && Queued(reqs, done, Used)
    requires reqs' == reqs[done[0] := SeenReq(reqs[done[0]])]
    ensures SomeSeen(reqs0, reqs', done[1..])
  {
    forall h | h in reqs0
      ensures reqs'[h] == if reqs0[h].phase == Used && h !in done[1..] then SeenReq(reqs0[h]) else reqs0[h]
    {
      assert h in done <==> h == done[0] || h in done[1..];
      assert reqs[done[0]] == reqs0[done[0]];
    }
  }

  /** The buffers of the completed requests. */
  ghost function Buffers(reqs: map<nat, Req>, done: seq<nat>): set<nat> {
    set h | h in done && h in reqs :: reqs[h].b
  }

  lemma BuffersNext(reqs: map<nat, Req>, done: seq<nat>)
    requires done != [] && done[0] in reqs
    ensures Buffers(reqs, done) == {reqs[done[0]].b} + Buffers(reqs, done[1..])
  {
    assert forall h :: h in done <==> h == done[0] || h in done[1..];
  }

  /** d0 after the buffers bs were released and those asleep on them woken: nothing else changes but the
      handler's place in the used ring. */
  ghost predicate Served(d0: State, d: State, bs: set<nat>) {
    && d == d0.(busy := d0.busy - bs, sleepers := d.sleepers, usedIdx := d.usedIdx)
    && d.sleepers == map p | p in d0.sleepers && !(d0.sleepers[p].Buf? && d0.sleepers[p].b in bs) :: d0.sleepers[p]
  }

  lemma ServedNone(d: State)
    ensures Served(d, d, {})
  {
  }

  lemma ServedNext(d0: State, d: State, d': State, bs: set<nat>, b: nat)
    requires Served(d0, d, bs)
    requires d' == d.(sleepers := Woken(d.sleepers, Buf(b)), busy := d.busy - {b}, usedIdx := d'.usedIdx)
    ensures Served(d0, d', bs + {b})
  {
    assert d.busy - {b} == d0.busy - (bs + {b});
  }

  /** The handler's run over the used ring, from d0 and g0 on, when the buffers bs have been woken; closed
      until Open unfolds it. */
  ghost predicate Underway(d0: State, g0: Book, d: State, g: Book, bs: set<nat>) {
    forall x {:trigger Open(x)} | Open(x) ::
      && g.posted == g0.posted && g.owner == g0.owner && SomeSeen(g0.reqs, g.reqs, g.done)
      && Served(d0, d, bs) && bs + Buffers(g0.reqs, g.done) == Buffers(g0.reqs, g0.done)
      && (AllGood(d0.info, g.done) <==> AllGood(d0.info, g0.done))
  }

  lemma UnderwayStart(d: State, g: Book)
    requires Inv(d, g)
    ensures Underway(d, g, d, g, {})
  {
    Unmoved(d, g);
    ServedNone(d);
  }

  lemma UnderwayNext(d0: State, g0: Book, d: State, g: Book, bs: set<nat>, d': State, g': Book, b: nat)
    requires Underway(d0, g0, d, g, bs) && Queued(g.reqs, g.done, Used) && g.done != [] && b == g.reqs[g.done[0]].b
    requires g.done[0] < |d.info| && d.info[g.done[0]].status == 0
    requires d' == d.(sleepers := Woken(d.sleepers, Buf(b)), busy := d.busy - {b}, usedIdx := d'.usedIdx)
    requires g' == g.(reqs := g.reqs[g.done[0] := SeenReq(g.reqs[g.done[0]])], done := g.done[1..])
    ensures Underway(d0, g0, d', g', bs + {b})
  {
    assert Open(0);
    GoodNext(d0.info, g.done);
    SeenNext(g0.reqs, g.reqs, g'.reqs, g.done);
    ServedNext(d0, d, d', bs, b);
    BuffersNext(g0.reqs, g.done);
  }

  lemma UnderwayFails(d0: State, g0: Book, d: State, g: Book, bs: set<nat>)
    requires Underway(d0, g0, d, g, bs) && g.done != [] && g.done[0] < |d.info| && d.info[g.done[0]].status != 0
    ensures !AllGood(d0.info, g0.done)
  {
    assert Open(0);
  }

  lemma UnderwayDone(d0: State, g0: Book, d: State, g: Book, bs: set<nat>)
    requires Underway(d0, g0, d, g, bs) && g.done == []
    ensures g.posted == g0.posted && g.owner == g0.owner && AllSeen(g0.reqs, g.reqs) && AllGood(d0.info, g0.done)
    ensures Served(d0, d, Buffers(g0.reqs, g0.done))
  {
    assert Open(0);
    assert bs + {} == bs && Buffers(g0.reqs, []) == {};
  }

  class Disk {
    var d: State
    ghost var g: Book

    constructor ()
      ensures Inv(d, g) && g.reqs == map[] && d.sleepers == map[] && d.busy == {}
    {
      d := State(seq(NUM, _ => Desc(Nowhere, 0, false, false, 0)), seq(NUM, _ => true), seq(NUM, _ => Info(None, 0)),
                 seq(NUM, _ => 0), 0, seq(NUM, _ => 0), 0, 0, {}, map[], 0);
      g := Book(map[], map[], [], []);
    }

    /** One round of the interrupt handler: the next completion's buffer is released and woken. False if the device
        failed it. */
    method See() returns (ok: bool)
      requires Inv(d, g) && g.done != []
      modifies this
      ensures old(g.done[0] in g.reqs && g.done[0] < |d.info|)
      ensures ok <==> old(d.info[g.done[0]].status) == 0
      ensures !ok ==> unchanged(this)
      ensures ok ==> Inv(d, g)
      ensures ok ==> g == old(g.(reqs := g.reqs[g.done[0] := SeenReq(g.reqs[g.done[0]])], done := g.done[1..]))
      ensures ok ==> d == old(d.(sleepers := Woken(d.sleepers, Buf(g.reqs[g.done[0]].b)),
                                 busy := d.busy - {g.reqs[g.done[0]].b}, usedIdx := (d.usedIdx + 1) % NUM))
    {
      SeeKeeps(d, g);
      var id := d.elems[d.usedIdx];
      if d.info[id].status != 0 {
        return false;
      }
      var b := d.info[id].b.value;
      d := d.(busy := d.busy - {b}, sleepers := Woken(d.sleepers, Buf(b)), usedIdx := (d.usedIdx + 1) % NUM);
      g := g.(reqs := g.reqs[id := SeenReq(g.reqs[id])], done := g.done[1..]);
      ok := true;
    }

    /** virtio_disk_intr. False is the panic on a request that the device failed. */
    method Intr() returns (ok: bool)
      requires Inv(d, g)
      modifies this
      ensures Inv(d, g)
      ensures ok <==> old(AllGood(d.info, g.done))
      ensures ok ==>
                g.done == [] && g.posted == old(g.posted) && g.owner == old(g.owner) && AllSeen(old(g.reqs), g.reqs)
      ensures ok ==> Served(old(d), d, Buffers(old(g.reqs), old(g.done)))
    {
      ghost var d0, g0, bs := d, g, {};
      Unmoved(d, g);
      UnderwayStart(d, g);
      while d.usedIdx % NUM != d.usedId % NUM
        invariant Inv(d, g) && More(d, g) && Underway(d0, g0, d, g, bs)
        decreases |g.done|
      {
        ghost var d1, g1, b := d, g, g.reqs[g.done[0]].b;
        ok := See();
        if !ok {
          UnderwayFails(d0, g0, d, g, bs);
          return;
        }
        UnderwayNext(d0, g0, d1, g1, bs, d, g, b);
        bs := bs + {b};
        Unmoved(d, g);
      }
      UnderwayDone(d0, g0, d, g, bs);
      ok := true;
    }

    /** alloc_desc. */
    method AllocDesc() returns (i: int)
      requires |d.free| == NUM
      modifies `d
      ensures -1 <= i < NUM && (i == -1 ==> d == old(d) && FreeSet(d.free) == {})
      ensures i != -1 ==>
                old(d.free[i]) && (forall k | 0 <= k < i :: !old(d.free)[k])
                  && d == old(d).(free := old(d.free)[i := false])
    {
      i := 0;
      while i < NUM
        invariant 0 <= i <= NUM && d == old(d) && forall k | 0 <= k < i :: !d.free[k]
      {
        if d.free[i] {
          d := d.(free := d.free[i := false]);
          return;
        }
        i := i + 1;
      }
      i := -1;
    }

    /** free_desc; false is its panic. */
    method FreeDesc(i: nat) returns (ok: bool)
      requires |d.free| == NUM == |d.desc|
      modifies `d
      ensures ok <==> i < NUM && !old(d.free[i])
      ensures d == if ok then Released(old(d), i) else old(d)
    {
      if i >= NUM {
        return false;
      }
      if d.free[i] {
        return false;
      }
      d := Released(d, i);
      ok := true;
    }

    /** alloc3_desc's way out. */
    method GiveBack(idx: seq<nat>, ghost d0: State)
      requires |d.free| == NUM == |d.desc| && d == d0.(free := d.free) && |d0.free| == NUM && Distinct(idx)
      requires (forall j {:trigger idx[j]} | 0 <= j < |idx| :: idx[j] < NUM && d0.free[idx[j]])
      requires TakenFrom(d0.free, d.free, idx)
      modifies `d
      ensures Spoiled(d0, d)
    {
      var j := 0;
      while j < |idx|
        invariant 0 <= j <= |idx| && |d.free| == NUM && Spoiled(d0, d.(free := d0.free))
        invariant TakenFrom(d0.free, d.free, idx[j..])
      {
        assert idx[j..][0] == idx[j];
        ghost var d1 := d;
        var ok := FreeDesc(idx[j]);
        assert ok;
        BackOne(d0.free, d1.free, idx, j);
        j := j + 1;
      }
      assert d.free == d0.free;
    }

    /** alloc3_desc: three descriptors, or none. */
    method Alloc3() returns (ok: bool, idx: seq<nat>)
      requires |d.free| == NUM == |d.desc|
      modifies `d
      ensures ok <==> |FreeSet(old(d.free))| >= 3
      ensures ok ==> |idx| == 3 && Distinct(idx) && (forall j | 0 <= j < 3 :: idx[j] < NUM && old(d.free)[idx[j]])
      ensures ok ==> d == old(d).(free := old(d.free)[idx[0] := false][idx[1] := false][idx[2] := false])
      ensures !ok ==> Spoiled(old(d), d)
    {
      idx := [];
      ghost var free0 := d.free;
      while |idx| < 3
        invariant |idx| <= 3 && Distinct(idx) && d == old(d).(free := d.free) && |d.free| == NUM
        invariant forall j {:trigger idx[j]} | 0 <= j < |idx| :: idx[j] < NUM && free0[idx[j]]
        invariant TakenFrom(free0, d.free, idx)
        decreases 3 - |idx|
      {
        var i := AllocDesc();
        if i < 0 {
          AllTaken(free0, d.free, idx);
          GiveBack(idx, old(d));
          return false, idx;
        }
        idx := idx + [i];
      }
      ThreeTaken(free0, d.free, idx);
      ok := true;
    }

    method SleepForDesc(p: nat)
      requires Inv(d, g) && |FreeSet(d.free)| < 3
      modifies `d
      ensures Inv(d, g) && p in d.sleepers && d.sleepers[p] == Chan.FreeDesc
    {
      d := d.(sleepers := d.sleepers[p := Chan.FreeDesc]);
    }

    /** The three descriptors are filled in and the chain put in the available ring. */
    method Format(b: nat, blockno: nat, write: bool, i0: nat, i1: nat, i2: nat)
      requires |d.desc| == NUM && |d.info| == NUM && |d.avail| == NUM && i0 < NUM && i1 < NUM && i2 < NUM
      modifies `d
      ensures d == old(d).(desc := old(d).desc[i0 := Desc(Header(write, 2 * blockno), 16, true, false, i1)]
                                              [i1 := Desc(DataOf(b), BSIZE, true, !write, i2)]
                                              [i2 := Desc(StatusOf(i0), 1, false, true, 0)],
                           info := old(d).info[i0 := Info(Some(b), 0)], busy := old(d).busy + {b},
                           avail := old(d).avail[old(d).availIdx % NUM := i0], availIdx := (old(d).availIdx + 1) % U16)
    {
      d := d.(desc := d.desc[i0 := Desc(Header(write, 2 * blockno), 16, true, false, i1)]);
      d := d.(desc := d.desc[i1 := Desc(DataOf(b), BSIZE, true, !write, i2)]);
      d := d.(info := d.info[i0 := d.info[i0].(status := 0)]);
      d := d.(desc := d.desc[i2 := Desc(StatusOf(i0), 1, false, true, 0)]);
      d := d.(busy := d.busy + {b}, info := d.info[i0 := d.info[i0].(b := Some(b))]);
      d := d.(avail := d.avail[d.availIdx % NUM := i0]);
      d := d.(availIdx := (d.availIdx + 1) % U16);
    }

    method Post(p: nat, b: nat, blockno: nat, write: bool, i0: nat, i1: nat, i2: nat, ghost d0: State)
      requires |d0.desc| == NUM && |d0.info| == NUM && |d0.avail| == NUM && |d0.free| == NUM && i0 < NUM && i1 < NUM
      requires i2 < NUM
      requires d == d0.(free := d0.free[i0 := false][i1 := false][i2 := false])
      modifies this
      ensures d == PostedOn(d0, p, b, blockno, write, i0, i1, i2) && g == Booked(old(g), b, blockno, write, i0, i1, i2)
    {
      Format(b, blockno, write, i0, i1, i2);
      d := d.(sleepers := d.sleepers[p := Buf(b)]);
      g := Booked(g, b, blockno, write, i0, i1, i2);
    }

    /** virtio_disk_rw up to its first sleep: for descriptors if fewer than three are free,
        and else on the buffer, with the request posted as h. The caller holds the buffer's lock. */
    method Start(p: nat, b: nat, blockno: nat, write: bool) returns (posted: bool, h: nat)
      requires Inv(d, g) && p !in d.sleepers && b !in d.busy && forall k | k in g.reqs :: g.reqs[k].b != b
      modifies this
      ensures Inv(d, g) && (posted <==> old(|g.reqs|) < 2)
      ensures !posted ==> g == old(g) && p in d.sleepers && d.sleepers[p] == Chan.FreeDesc
      ensures posted ==>
                h !in old(g.reqs) && h in g.reqs && g.reqs[h].phase == Posted
                  && g.reqs[h].(i1 := 0, i2 := 0) == Req(b, blockno, write, 0, 0, Posted, 0)
      ensures posted ==> g.reqs - {h} == old(g.reqs) && g.posted == old(g.posted) + [h] && g.done == old(g.done)
      ensures posted ==> p in d.sleepers && d.sleepers[p] == Buf(b)
    {
      Conservation(d.free, g.owner, g.reqs);
      ghost var d0, g0 := d, g;
      var idx;
      posted, idx := Alloc3();
      h := 0;
      if posted {
        h := idx[0];
        PostKeeps(d0, g0, p, b, blockno, write, h, idx[1], idx[2]);
        Post(p, b, blockno, write, h, idx[1], idx[2], d0);
        Unbook(g0.reqs, h, g.reqs[h]);
      } else {
        SpoiledKeeps(d0, d, g);
        SleepForDesc(p);
      }
    }

    method SleepOnBuf(p: nat, b: nat)
      requires Inv(d, g) && b in d.busy
      modifies `d
      ensures Inv(d, g) && p in d.sleepers && d.sleepers[p] == Buf(b)
    {
      d := d.(sleepers := d.sleepers[p := Buf(b)]);
    }

    /** free_chain, on the chain of request r at h. */
    method FreeChain(h: nat, ghost r: Req)
      requires |d.free| == NUM && ChainOk(d.desc, h, r) && h != r.i1 && h != r.i2 && r.i1 != r.i2
      requires !d.free[h] && !d.free[r.i1] && !d.free[r.i2]
      modifies `d
      ensures d == Released(Released(Released(old(d), h), r.i1), r.i2)
    {
      var i := h;
      ghost var n := 0;
      while true
        invariant n <= 2 && i == (if n == 0 then h else if n == 1 then r.i1 else r.i2)
        invariant d == if n == 0 then old(d) else if n == 1 then Released(old(d), h)
                                                  else Released(Released(old(d), h), r.i1)
        decreases 2 - n
      {
        var ok := FreeDesc(i);
        assert ok;
        if d.desc[i].more {
          i := d.desc[i].next;
        } else {
          break;
        }
        n := n + 1;
      }
    }

    /** The request is taken out of info[] and its chain freed. */
    method Dismiss(h: nat, ghost r: Req)
      requires |d.free| == NUM && |d.info| == NUM && ChainOk(d.desc, h, r) && h != r.i1 && h != r.i2 && r.i1 != r.i2
      requires !d.free[h] && !d.free[r.i1] && !d.free[r.i2]
      modifies `d
      ensures d == FreedOf(old(d), h, r.i1, r.i2)
    {
      d := d.(info := d.info[h := d.info[h].(b := None)]);
      FreeChain(h, r);
    }

    /** virtio_disk_rw from a wakeup on: sleep again while the buffer is busy, or close the request. */
    method Finish(p: nat, h: nat) returns (closed: bool)
      requires Inv(d, g) && p !in d.sleepers && h in g.reqs
      modifies this
      ensures Inv(d, g) && (closed <==> old(g.reqs[h].phase == Seen))
      ensures closed ==> g.reqs == old(g.reqs) - {h} && g.posted == old(g.posted) && g.done == old(g.done)
      ensures closed ==> forall q | q in d.sleepers :: d.sleepers[q] != Chan.FreeDesc
      ensures !closed ==> g == old(g) && p in d.sleepers && d.sleepers[p] == Buf(g.reqs[h].b)
    {
      Known(d, g, h);
      var b := d.info[h].b.value;
      if b in d.busy {
        SleepOnBuf(p, b);
        return false;
      }
      CloseKeeps(d, g, h);
      Dismiss(h, g.reqs[h]);
      g := Closed(g, h);
      closed := true;
    }

    /** The device takes the next chain from the available ring. */
    method Fetch() returns (job: Job)
      requires Inv(d, g) && d.lastAvail != d.availIdx
      modifies this
      ensures Inv(d, g) && old(g.posted != [] && g.posted[0] in g.reqs)
      ensures var h, r := old(g.posted[0]), old(g.reqs[g.posted[0]]);
              && job == Job(h, r.write, 2 * r.blockno, r.b, h)
              && g == old(g).(reqs := old(g.reqs)[h := r.(phase := Fetched)], posted := old(g.posted[1..]))
      ensures d == old(d).(lastAvail := (old(d.lastAvail) + 1) % U16)
    {
      FetchKeeps(d, g);
      var h := d.avail[d.lastAvail % NUM];
      var d0 := d.desc[h];
      var d1 := d.desc[d0.next];
      var d2 := d.desc[d1.next];
      job := Job(h, d0.addr.write, d0.addr.sector, d1.addr.b, d2.addr.h);
      d := d.(lastAvail := (d.lastAvail + 1) % U16);
      g := g.(reqs := g.reqs[h := g.reqs[h].(phase := Fetched)], posted := g.posted[1..]);
    }

    /** The device completes a chain that it has, in any order, and reports a status. */
    method Complete(h: nat, status: int)
      requires Inv(d, g) && h in g.reqs && g.reqs[h].phase == Fetched
      modifies this
      ensures Inv(d, g)
      ensures g == old(g).(reqs := old(g.reqs)[h := old(g.reqs[h]).(phase := Used)], done := old(g.done) + [h])
      ensures |d.info| == NUM && h < NUM && d.info[h].status == status && d.desc == old(d.desc) && d.free == old(d.free)
      ensures d.busy == old(d.busy)
    {
      CompleteKeeps(d, g, h, status);
      var at := d.desc[d.desc[d.desc[h].next].next].addr.h;
      d := d.(info := d.info[at := d.info[at].(status := status)], elems := d.elems[d.usedId % NUM := h],
              usedId := (d.usedId + 1) % U16);
      g := g.(reqs := g.reqs[h := g.reqs[h].(phase := Used)], done := g.done + [h]);
    }
  }
}
