/** Every interleaving of file-system operations, buffer-cache traffic, commit writes,
    crashes and recoveries, one lock-protected region or one disk write at a time. */
module LogProtocol {
  import opened Lists
  import opened Blocks
  import opened Counters
  import opened Folding
  import opened Params
  import opened RedoLog

  type Pid = nat

  /** The sleep lock of a cached block: who holds it, and whether its data has been
      changed since it was last passed to log_write. */
  datatype Hold = Hold(pid: Pid, dirty: bool)

  /** Down: crashed, nothing in memory. Committing and Recovering count the disk writes
      done since `base`. */
  datatype Mode = Running | Committing(base: Disk, k: nat) | Down | Recovering(base: Disk, k: nat)

  /** `ops` maps each active operation to the log slots it has taken; `passed` maps each process
      that log_write's panic test has let through, but that has not yet got the log's lock, to its
      block; `missing` counts the bunpins of the last recovery, which no bpin preceded.
      `current` (every log_write applied), `points` (`current` at each moment the last outstanding
      operation ended) and `saved` (the point that a crash now should recover) are specification
      variables. */
  datatype State = State(
    disk: Disk, cache: map<nat, Block>, held: map<nat, Hold>, lh: seq<nat>, ops: map<Pid, nat>,
    passed: map<Pid, nat>, missing: multiset<nat>, mode: Mode, current: Disk, points: seq<Disk>, saved: nat)

  datatype Step =
    | Begin(p: Pid)
    | Bread(p: Pid, b: nat)
    | Modify(p: Pid, b: nat, v: Block)
    | Check(p: Pid, b: nat)
    | Append(p: Pid)
    | Brelse(p: Pid, b: nat)
    | Evict(b: nat)
    | End(p: Pid)
    | CommitWrite
    | CommitDone
    | Crash
    | Boot
    | RecoverWrite
    | RecoverDone

  predicate Live(s: State) { s.mode.Running? || s.mode.Committing? }

  predicate Dirty(s: State, b: nat) { b in s.held && s.held[b].dirty }

  /** p holds the buffer of block b. */
  predicate Holds(s: State, p: Pid, b: nat) { b in s.held && s.held[b].pid == p && b in s.cache }

  /** bread of b need not wait: its buffer is not locked, or it has none. */
  predicate Idle(s: State, b: nat) { b in s.held ==> b !in s.cache }

  /** What bread finds: the cached copy, or the disk. */
  function Read(s: State, b: nat): Block
    requires b < |s.disk|
  {
    if b in s.cache then s.cache[b] else s.disk[b]
  }

  /** Blocks still pinned: bpin at log_write, bunpin as each is installed. */
  function Pinned(s: State): seq<nat> {
    if s.mode.Committing? then s.lh[Installed(|s.lh|, s.mode.k)..] else s.lh
  }

  /** The reference count of the buffer of b, a 32-bit field. */
  function Refs(s: State, b: nat): nat {
    ((if b in s.held then 1 else 0) + (if b in Pinned(s) then 1 else 0) - s.missing[b]) % U32
  }

  function CommitLength(lh: seq<nat>): nat {
    if lh == [] then 0 else 2 * |lh| + 2
  }

  /** begin_op's test: room for this operation's worst case on top of everyone else's. */
  predicate HasRoom(n: nat, outstanding: nat) {
    n + (outstanding + 1) * MAXOPBLOCKS <= LOGSIZE
  }

  /** log_write's panic test. */
  predicate TooBig(n: nat, size: nat) {
    n >= LOGSIZE || n + 1 >= size
  }

  /** There are buffers for the blocks bs: they are cached, or there are unused ones. A bget that finds
      neither, and no buffer to recycle, panics. Closed until Open unfolds it. */
  ghost predicate Spare(s: State, bs: set<nat>) {
    forall x {:trigger Open(x)} | Open(x) :: |s.cache.Keys + bs| <= NBUF
  }

  /** A round of write_log or install_trans can read both its blocks. */
  ghost predicate Readable(L: Layout, s: State, j: nat) {
    && j < |s.lh| && s.lh[j] < |s.disk| && L.Slot(j) < |s.disk| && L.Slot(j) != s.lh[j]
    && Idle(s, s.lh[j]) && Idle(s, L.Slot(j)) && Spare(s, {s.lh[j], L.Slot(j)})
  }

  /** A committing process finds what its next disk write needs. */
  ghost predicate CanWrite(L: Layout, s: State) {
    && s.mode.Committing? && s.mode.k < CommitLength(s.lh) && L.Fits(s.disk) && |s.lh| <= LOGSIZE
    && var n, k := |s.lh|, s.mode.k;
       && (k < n ==> Readable(L, s, k))
       && (n < k <= 2 * n ==> Readable(L, s, k - n - 1))
       && (k == n || 2 * n < k ==> Spare(s, {L.start}))
  }

  ghost predicate Enabled(L: Layout, s: State, st: Step) {
    match st
    case Begin(p) => s.mode.Running? && p !in s.ops && HasRoom(|s.lh|, |s.ops|)
    case Bread(p, b) => Live(s) && p !in s.passed && b < |s.disk| && L.Home(b) && Idle(s, b) && Spare(s, {b})
    // Callers change a block and pass it to log_write only inside an operation.
    case Modify(p, b, v) => Live(s) && p in s.ops && p !in s.passed && Holds(s, p, b)
    // The tests at the head of log_write, made without the log's lock; they did not panic.
    case Check(p, b) => Live(s) && p in s.ops && p !in s.passed && Holds(s, p, b) && !TooBig(|s.lh|, L.size)
    // The rest of log_write, under the lock.
    case Append(p) => Live(s) && p in s.ops && p in s.passed && Holds(s, p, s.passed[p]) && s.passed[p] < |s.current|
    // Callers log what they changed before they let it go.
    case Brelse(p, b) => Live(s) && p !in s.passed && Holds(s, p, b) && !s.held[b].dirty
    case Evict(b) => Live(s) && b in s.cache && Refs(s, b) == 0
    case End(p) => s.mode.Running? && p in s.ops && p !in s.passed && forall b | Dirty(s, b) :: s.held[b].pid != p
    case CommitWrite => CanWrite(L, s)
    case CommitDone => s.mode.Committing? && s.mode.k == CommitLength(s.lh)
    case Crash => s.saved < |s.points|
    case Boot => s.mode.Down? && DiskOk(s.disk, L)
    case RecoverWrite => && s.mode.Recovering? && s.mode.k <= |s.lh| && L.Fits(s.disk) && |s.lh| < L.size
                         && var k := s.mode.k;
                            if k < |s.lh| then s.lh[k] < |s.disk| && Spare(s, {s.lh[k], L.Slot(k)})
                            else Spare(s, {L.start})
    case RecoverDone => s.mode.Recovering? && s.mode.k == |s.lh| + 1
  }

  /** The one disk write a committing process does next. Slots past the end of the log area, which
      an overfull log has, are home blocks and may be cached. */
  ghost function CommitIO(L: Layout, s: State): (w: Write)
    requires CanWrite(L, s)
    ensures w.bno < |s.disk|
  {
    var n, k := |s.lh|, s.mode.k;
    if k < n then Write(L.Slot(k), Read(s, s.lh[k]))
    else if k == n then Write(L.start, PutHeader(s.disk[L.start], s.lh))
    else if k <= 2 * n then Write(s.lh[k - n - 1], Read(s, L.Slot(k - n - 1)))
    else Write(L.start, PutHeader(s.disk[L.start], []))
  }

  ghost function RecoverIO(L: Layout, s: State): (w: Write)
    requires Enabled(L, s, RecoverWrite)
    ensures w.bno < |s.disk|
  {
    var k := s.mode.k;
    if k < |s.lh| then Write(s.lh[k], s.disk[L.Slot(k)])
    else Write(L.start, PutHeader(s.disk[L.start], []))
  }

  ghost function DoCommitWrite(L: Layout, s: State): State
    requires CanWrite(L, s)
  {
    var w := CommitIO(L, s);
    var n, k := |s.lh|, s.mode.k;
    s.(disk := s.disk[w.bno := w.data],
       cache := if k != n && k <= 2 * n && L.Home(w.bno) then s.cache[w.bno := w.data] else s.cache,
       mode := Committing(s.mode.base, k + 1),
       saved := if k == n && s.points != [] then |s.points| - 1 else s.saved)
  }

  ghost function DoAppend(s: State, p: Pid, b: nat): State
    requires p in s.ops && b in s.cache && b < |s.current|
  {
    s.(lh := if b in s.lh then s.lh else s.lh + [b],
       ops := if b in s.lh then s.ops else s.ops[p := s.ops[p] + 1],
       passed := s.passed - {p},
       held := s.held[b := Hold(p, false)],
       current := s.current[b := s.cache[b]])
  }

  ghost function DoEnd(s: State, p: Pid): State
    requires p in s.ops
  {
    var s' := s.(ops := s.ops - {p});
    if s'.ops == map[] then
      s'.(mode := Committing(s.disk, 0), points := s.points + [s.current],
          saved := if s.lh == [] then |s.points| else s.saved)
    else s'
  }

  ghost function DoRecoverWrite(L: Layout, s: State): State
    requires Enabled(L, s, RecoverWrite)
  {
    var w, k := RecoverIO(L, s), s.mode.k;
    s.(disk := s.disk[w.bno := w.data], cache := if k < |s.lh| then s.cache[w.bno := w.data] else s.cache,
       mode := Recovering(s.mode.base, k + 1))
  }

  /** The buffers of the blocks just recovered are still cached, each with its bunpin uncounted for. */
  ghost function DoRecoverDone(s: State): State {
    s.(lh := [], mode := Running, current := s.disk, missing := multiset(s.lh))
  }

  ghost predicate Next(L: Layout, s: State, st: Step, s': State) {
    && Enabled(L, s, st)
    && match st
       case Begin(p) => s' == s.(ops := s.ops[p := 0])
       case Bread(p, b) => s' == s.(cache := s.cache[b := Read(s, b)], held := s.held[b := Hold(p, false)])
       case Modify(p, b, v) => s' == s.(cache := s.cache[b := v], held := s.held[b := Hold(p, true)])
       case Check(p, b) => s' == s.(passed := s.passed[p := b])
       case Append(p) => s' == DoAppend(s, p, s.passed[p])
       case Brelse(p, b) => s' == s.(held := s.held - {b})
       case Evict(b) => s' == s.(cache := s.cache - {b})
       case End(p) => s' == DoEnd(s, p)
       case CommitWrite => s' == DoCommitWrite(L, s)
       case CommitDone => s' == s.(mode := Running, lh := [])
       case Crash => s' == s.(cache := map[], held := map[], ops := map[], passed := map[], missing := multiset{},
                              lh := [], mode := Down, points := s.points[..s.saved + 1])
       case Boot => s' == s.(lh := Header(s.disk[L.start], L, |s.disk|), mode := Recovering(s.disk, 0))
       case RecoverWrite => s' == DoRecoverWrite(L, s)
       case RecoverDone => s' == DoRecoverDone(s)
  }

  /** A machine about to boot from a disk whose log header is readable. */
  ghost predicate Init(L: Layout, s: State) {
    && DiskOk(s.disk, L)
    && s.mode.Down? && s.cache == map[] && s.held == map[] && s.ops == map[] && s.lh == []
    && s.passed == map[] && s.missing == multiset{}
    && |s.current| == |s.disk|
    && s.points == [Recover(s.disk, L)] && s.saved == 0
  }

  // ---- Reservation, in every run

  /** Each operation has taken at most q slots. */
  ghost predicate Within(q: nat, s: State) {
    forall p | p in s.ops :: s.ops[p] <= q
  }

  /** Slots taken plus slots still reserved never exceed the log. */
  ghost predicate Reserved(s: State) {
    && |s.lh| + MAXOPBLOCKS * |s.ops| - Sum(s.ops) <= LOGSIZE
    && (!s.mode.Running? ==> s.ops == map[])
  }

  lemma {:induction false} SumBound(m: map<Pid, nat>)
    requires forall p | p in m :: m[p] <= MAXOPBLOCKS
    ensures Sum(m) <= MAXOPBLOCKS * |m|
    decreases |m|
  {
    if m != map[] {
      var p :| p in m;
      SumRemove(m, p);
      SumBound(m - {p});
      assert |m - {p}| == |m| - 1;
    }
  }

  lemma BeginReserves(s: State, p: Pid)
    requires Reserved(s) && p !in s.ops && HasRoom(|s.lh|, |s.ops|) && s.mode.Running?
    ensures Reserved(s.(ops := s.ops[p := 0]))
  {
    SumUpdate(s.ops, p, 0);
    assert |s.ops[p := 0]| == |s.ops| + 1 by { assert s.ops[p := 0].Keys == s.ops.Keys + {p}; }
  }

  lemma AppendReserves(s: State, p: Pid, b: nat)
    requires Reserved(s) && p in s.ops && b in s.cache && b < |s.current|
    ensures Reserved(DoAppend(s, p, b))
  {
    if b !in s.lh {
      SumUpdate(s.ops, p, s.ops[p] + 1);
      assert |s.ops[p := s.ops[p] + 1]| == |s.ops| by { assert s.ops[p := s.ops[p] + 1].Keys == s.ops.Keys; }
    }
  }

  lemma EndReserves(s: State, p: Pid)
    requires Reserved(s) && Within(MAXOPBLOCKS, s) && p in s.ops
    ensures Reserved(DoEnd(s, p))
  {
    SumRemove(s.ops, p);
    assert |s.ops - {p}| == |s.ops| - 1 by { assert (s.ops - {p}).Keys == s.ops.Keys - {p}; }
  }

  lemma KeepReserved(L: Layout, s: State, st: Step, s': State)
    requires Reserved(s) && Within(MAXOPBLOCKS, s) && Next(L, s, st, s')
    ensures Reserved(s')
  {
    assert Sum(map[]) == 0;
    match st
    case Begin(p) => BeginReserves(s, p);
    case Append(p) => AppendReserves(s, p, s.passed[p]);
    case End(p) => EndReserves(s, p);
    case _ =>
  }

  // ---- Buffers, in every run

  /** No more blocks are cached than there are buffers; a recovery has cached listed blocks only, and
      wrote the header last, through a buffer of its own. */
  ghost predicate Buffered(L: Layout, s: State) {
    && |s.cache| <= NBUF
    && (s.mode.Down? ==> s.cache == map[])
    && (s.mode.Recovering? ==> && (forall b | b in s.cache :: L.Home(b)) && (forall b | b in s.lh :: L.Home(b))
                               && (s.mode.k > |s.lh| ==> |s.cache| < NBUF))
  }

  lemma Cached(s: State, b: nat, v: Block, bs: set<nat>)
    requires b in bs && Spare(s, bs)
    ensures |s.cache[b := v]| <= NBUF
  {
    assert Open(0);
    SubsetSize(s.cache[b := v].Keys, s.cache.Keys + bs);
  }

  lemma Changed(cache: map<nat, Block>, b: nat, v: Block)
    requires b in cache
    ensures |cache[b := v]| == |cache|
  {
    assert cache[b := v].Keys == cache.Keys;
  }

  lemma Dropped(cache: map<nat, Block>, b: nat)
    ensures |cache - {b}| <= |cache|
  {
    SubsetSize((cache - {b}).Keys, cache.Keys);
  }

  lemma RoundCached(L: Layout, s: State, j: nat, b: nat, v: Block)
    requires Readable(L, s, j) && (b == s.lh[j] || b == L.Slot(j))
    ensures |s.cache[b := v]| <= NBUF
  {
    Cached(s, b, v, {s.lh[j], L.Slot(j)});
  }

  lemma CommitBuffered(L: Layout, s: State, w: Write)
    requires |s.cache| <= NBUF && s.mode.Committing?
    requires var n, k := |s.lh|, s.mode.k;
             && (k < n ==> Readable(L, s, k) && w.bno == L.Slot(k))
             && (n < k <= 2 * n ==> Readable(L, s, k - n - 1) && w.bno == s.lh[k - n - 1])
             && (k == n || 2 * n < k ==> Spare(s, {L.start}) && w.bno == L.start)
    ensures |s.cache[w.bno := w.data]| <= NBUF
  {
    var n, k := |s.lh|, s.mode.k;
    if k < n {
      RoundCached(L, s, k, w.bno, w.data);
    } else if n < k <= 2 * n {
      RoundCached(L, s, k - n - 1, w.bno, w.data);
    } else {
      Cached(s, w.bno, w.data, {L.start});
    }
  }

  lemma RecoverBuffered(L: Layout, s: State)
    requires Buffered(L, s) && Enabled(L, s, RecoverWrite)
    ensures Buffered(L, DoRecoverWrite(L, s))
  {
    var w, k := RecoverIO(L, s), s.mode.k;
    if k < |s.lh| {
      Cached(s, w.bno, w.data, {s.lh[k], L.Slot(k)});
    } else {
      assert Open(0);
      assert L.start !in s.cache by { assert !L.Home(L.start); }
      assert |s.cache.Keys + {L.start}| == |s.cache| + 1;
    }
  }

  lemma CacheBuffered(L: Layout, s: State, st: Step, s': State)
    requires Buffered(L, s) && Next(L, s, st, s') && (st.Bread? || st.Modify? || st.Evict?)
    ensures Buffered(L, s')
  {
    match st
    case Bread(p, b) => Cached(s, b, Read(s, b), {b});
    case Modify(p, b, v) => Changed(s.cache, b, v);
    case Evict(b) => Dropped(s.cache, b);
  }

  lemma OtherBuffered(L: Layout, s: State, st: Step, s': State)
    requires Buffered(L, s) && Next(L, s, st, s')
    requires !st.Bread? && !st.Modify? && !st.Evict? && !st.CommitWrite? && !st.RecoverWrite?
    ensures Buffered(L, s')
  {
  }

  lemma KeepBuffered(L: Layout, s: State, st: Step, s': State)
    requires Buffered(L, s) && Next(L, s, st, s')
    ensures Buffered(L, s')
  {
    match st
    case Bread(_, _) => CacheBuffered(L, s, st, s');
    case Modify(_, _, _) => CacheBuffered(L, s, st, s');
    case Evict(_) => CacheBuffered(L, s, st, s');
    case CommitWrite => CommitBuffered(L, s, CommitIO(L, s));
    case RecoverWrite => RecoverBuffered(L, s);
    case _ => OtherBuffered(L, s, st, s');
  }

  // ---- Invariant

  /** Room for every slot that operations of at most q slots can take: while one process is between
      log_write's test and its lock, another may append, so the test alone does not keep the log
      within its area. */
  predicate Roomy(L: Layout, q: nat) {
    q <= MAXOPBLOCKS && LOGSIZE < L.size + 2 * (MAXOPBLOCKS - q)
  }

  /** A log large enough for operations of at most q slots: it has room for them, or a list that does
      not fit pins every buffer there is, so that its commit cannot begin. */
  predicate Enough(L: Layout, q: nat) { Roomy(L, q) || (q <= MAXOPBLOCKS && NBUF <= L.size) }

  ghost predicate Sizes(L: Layout, s: State) {
    && L.Fits(s.disk)
    && |s.current| == |s.disk|
    && |s.lh| <= LOGSIZE && (|s.lh| < L.size || NBUF <= L.size)
    && (forall j | 0 <= j < |s.lh| :: s.lh[j] < |s.disk| && L.Home(s.lh[j]))
    && s.saved < |s.points|
  }

  /** Cached copies are current unless their holder is half-way through a change,
      and only an operation can be. */
  ghost predicate Coherent(L: Layout, s: State)
    requires Sizes(L, s)
  {
    && (forall b | b in s.cache :: b < |s.disk| && L.Home(b))
    && (forall b | b in s.held :: b in s.cache)
    && (forall b | Dirty(s, b) :: s.held[b].pid in s.ops)
    && (forall b | b in s.cache && !Dirty(s, b) :: s.cache[b] == s.current[b])
    && (forall b | b in Pinned(s) :: b in s.cache)
  }

  /** A process that the panic test let through, with a slot left to take, still finds one. */
  ghost predicate Checks(L: Layout, q: nat, s: State) {
    && (forall p | p in s.passed :: p in s.ops)
    && (L.size < NBUF ==>
          forall p | p in s.passed && p in s.ops && s.passed[p] !in s.lh && s.ops[p] < q :: |s.lh| + 1 < L.size)
  }

  /** What a crash now should recover. */
  ghost function Durable(s: State): Disk
    requires s.saved < |s.points|
  {
    s.points[s.saved]
  }

  ghost predicate RunningOk(L: Layout, q: nat, s: State)
    requires Sizes(L, s)
  {
    && Clean(s.disk, L)
    && SameHome(s.disk, Durable(s), L) && s.saved + 1 == |s.points|
    && Coherent(L, s) && Checks(L, q, s) && Distinct(s.lh)
    && (forall b: nat | b < |s.disk| && L.Home(b) && b !in s.lh :: s.disk[b] == s.current[b])
    && (s.ops == map[] ==> s.lh == [])
  }

  /** The header of a non-empty transaction is still to be written. */
  predicate Undecided(s: State) { s.mode.Committing? && s.lh != [] && s.mode.k <= |s.lh| }

  /** What a commit that began on disk base and is at its k-th write has to do with, besides the disk
      and the cache. */
  ghost predicate CommitFrame(L: Layout, s: State, base: Disk, k: nat)
    requires Sizes(L, s)
  {
    && |base| == |s.disk| && Clean(base, L)
    && k <= CommitLength(s.lh)
    && s.ops == map[] && s.passed == map[] && Distinct(s.lh)
    && (forall b: nat | b < |base| && L.Home(b) && b !in s.lh :: base[b] == s.current[b])
    && SameHome(if k <= |s.lh| then base else s.current, Durable(s), L)
    && s.saved + (if k <= |s.lh| && s.lh != [] then 2 else 1) == |s.points|
    && SameHome(s.points[|s.points| - 1], s.current, L)
  }

  /** The disk at the k-th write of a commit; one whose list does not fit has written nothing. */
  ghost predicate Written(base: Disk, L: Layout, lh: seq<nat>, current: Disk, k: nat, disk: Disk)
    requires L.Fits(base) && |base| == |disk| == |current|
  {
    if L.Loggable(lh, |disk|) then CommitAt(base, L, lh, current, k, disk) else k == 0 && disk == base
  }

  ghost predicate CommittingOk(L: Layout, s: State, base: Disk, k: nat)
    requires Sizes(L, s)
  {
    CommitFrame(L, s, base, k) && Coherent(L, s) && Written(base, L, s.lh, s.current, k, s.disk)
  }

  ghost predicate RecoveringOk(L: Layout, s: State, base: Disk, k: nat)
    requires Sizes(L, s)
  {
    && |base| == |s.disk| && DiskOk(base, L)
    && s.lh == Header(base[L.start], L, |base|)
    && k <= |s.lh| + 1
    && s.disk == Apply(base, RecoverWrites(base, L)[..k])
    && SameHome(Recover(base, L), Durable(s), L) && s.saved + 1 == |s.points|
    && (forall b | b in s.cache :: b in s.lh && s.cache[b] == s.disk[b])
    && (forall j | 0 <= j < |s.lh| && j < k :: s.lh[j] in s.cache)
    && s.held == map[] && s.ops == map[] && s.passed == map[]
  }

  ghost predicate DownOk(L: Layout, s: State)
    requires Sizes(L, s)
  {
    && DiskOk(s.disk, L) && SameHome(Recover(s.disk, L), Durable(s), L) && s.saved + 1 == |s.points|
    && s.cache == map[] && s.held == map[] && s.ops == map[] && s.passed == map[] && s.lh == []
  }

  ghost predicate ModeOk(L: Layout, q: nat, s: State)
    requires Sizes(L, s)
  {
    match s.mode
    case Running => RunningOk(L, q, s)
    case Committing(base, k) => CommittingOk(L, s, base, k)
    case Down => DownOk(L, s)
    case Recovering(base, k) => RecoveringOk(L, s, base, k)
  }

  ghost predicate Inv(L: Layout, q: nat, s: State) {
    Sizes(L, s) && ModeOk(L, q, s)
  }

  // ---- Preservation

  lemma KeepBegin(L: Layout, q: nat, s: State, p: Pid, s': State)
    requires Inv(L, q, s) && Next(L, s, Begin(p), s')
    ensures Inv(L, q, s')
  {
    assert Coherent(L, s') by {
      assert forall b :: Dirty(s', b) == Dirty(s, b);
    }
    assert p in s'.ops;
  }

  lemma RunningOnly(L: Layout, q: nat, s: State, s': State)
    requires Sizes(L, s) && RunningOk(L, q, s) && s' == s.(cache := s'.cache, held := s'.held) && Coherent(L, s')
    ensures RunningOk(L, q, s')
  {
  }

  lemma FrameOnly(L: Layout, s: State, base: Disk, k: nat, s': State)
    requires Sizes(L, s) && CommitFrame(L, s, base, k) && s' == s.(cache := s'.cache, held := s'.held)
    ensures Sizes(L, s') && CommitFrame(L, s', base, k)
  {
  }

  /** A step that touches only the cache keeps the invariant if the cache stays coherent. */
  lemma CacheOnly(L: Layout, q: nat, s: State, s': State)
    requires Inv(L, q, s) && Live(s)
    requires s' == s.(cache := s'.cache, held := s'.held)
    requires Coherent(L, s')
    ensures Inv(L, q, s')
  {
    match s.mode
    case Running => RunningOnly(L, q, s, s');
    case Committing(base, k) => FrameOnly(L, s, base, k, s');
  }

  lemma LiveCoherent(L: Layout, q: nat, s: State)
    requires Inv(L, q, s) && Live(s)
    ensures Coherent(L, s)
  {
  }

  lemma BreadCoherent(L: Layout, s: State, p: Pid, b: nat, s': State)
    requires Sizes(L, s) && Coherent(L, s) && b < |s.disk| && L.Home(b) && Idle(s, b)
    requires s' == s.(cache := s.cache[b := s.current[b]], held := s.held[b := Hold(p, false)])
    ensures Sizes(L, s') && Coherent(L, s')
  {
    assert Pinned(s') == Pinned(s);
    assert forall c :: Dirty(s', c) == Dirty(s, c);
  }

  lemma ReadsCommitting(L: Layout, s: State, base: Disk, b: nat)
    requires Sizes(L, s) && s.mode.Committing? && Coherent(L, s) && |base| == |s.disk|
    requires HomesAt(base, L, s.lh[..Installed(|s.lh|, s.mode.k)], s.current, s.disk)
    requires b < |s.disk| && L.Home(b) && !Dirty(s, b)
    requires b !in s.lh ==> base[b] == s.current[b]
    ensures Read(s, b) == s.current[b]
  {
    if b !in s.cache && b in s.lh {
      var m := Installed(|s.lh|, s.mode.k);
      assert s.lh == s.lh[..m] + s.lh[m..];
    }
  }

  /** Cache transparency: bread returns the latest logged contents. */
  lemma ReadsCurrent(L: Layout, q: nat, s: State, b: nat)
    requires Inv(L, q, s) && Live(s) && b < |s.disk| && L.Home(b) && !Dirty(s, b)
    ensures Read(s, b) == s.current[b]
  {
    if s.mode.Committing? {
      assert s.lh[..0] == [];
      ReadsCommitting(L, s, s.mode.base, b);
    }
  }

  lemma KeepBread(L: Layout, q: nat, s: State, p: Pid, b: nat, s': State)
    requires Inv(L, q, s) && Next(L, s, Bread(p, b), s')
    ensures Inv(L, q, s')
  {
    LiveCoherent(L, q, s);
    ReadsCurrent(L, q, s, b);
    BreadCoherent(L, s, p, b, s');
    CacheOnly(L, q, s, s');
  }

  lemma ModifyCoherent(L: Layout, s: State, p: Pid, b: nat, v: Block, s': State)
    requires Sizes(L, s) && Coherent(L, s) && p in s.ops && b in s.cache
    requires s' == s.(cache := s.cache[b := v], held := s.held[b := Hold(p, true)])
    ensures Sizes(L, s') && Coherent(L, s')
  {
    assert Pinned(s') == Pinned(s);
    assert Dirty(s', b);
  }

  lemma KeepModify(L: Layout, q: nat, s: State, p: Pid, b: nat, v: Block, s': State)
    requires Inv(L, q, s) && Next(L, s, Modify(p, b, v), s')
    ensures Inv(L, q, s')
  {
    LiveCoherent(L, q, s);
    ModifyCoherent(L, s, p, b, v, s');
    CacheOnly(L, q, s, s');
  }

  lemma KeepCheck(L: Layout, q: nat, s: State, p: Pid, b: nat, s': State)
    requires Inv(L, q, s) && Next(L, s, Check(p, b), s')
    ensures Inv(L, q, s')
  {
    assert s.mode.Running?;
    assert Coherent(L, s') by {
      assert forall c :: Dirty(s', c) == Dirty(s, c);
    }
  }

  /** With two operations under way, one of them with a slot to take, the log has room for that slot. */
  lemma RoomForTwo(L: Layout, q: nat, s: State, p: Pid, r: Pid)
    requires Roomy(L, q) && Reserved(s) && Within(q, s) && p in s.ops && r in s.ops && p != r && s.ops[r] < q
    ensures |s.lh| + 1 < L.size
  {
    var m := s.ops - {p};
    SumRemove(s.ops, p);
    SumRemove(m, r);
    SumBound(m - {r});
    assert |m| == |s.ops| - 1 by { assert m.Keys == s.ops.Keys - {p}; }
    assert |m - {r}| == |s.ops| - 2 by { assert (m - {r}).Keys == m.Keys - {r}; }
  }

  lemma AppendSizes(L: Layout, q: nat, s: State, p: Pid, s': State)
    requires Sizes(L, s) && Checks(L, q, s) && Coherent(L, s) && Next(L, s, Append(p), s')
    requires Reserved(s') && Within(q, s') && Within(MAXOPBLOCKS, s')
    ensures Sizes(L, s')
  {
    var b := s.passed[p];
    SumBound(s'.ops);
    if b !in s.lh {
      assert s'.ops[p] == s.ops[p] + 1;
    }
  }

  lemma AppendChecks(L: Layout, q: nat, s: State, p: Pid, s': State)
    requires Enough(L, q) && Checks(L, q, s) && Next(L, s, Append(p), s') && Reserved(s') && Within(q, s')
    ensures Checks(L, q, s')
  {
    if L.size < NBUF {
      forall r | r in s'.passed && s'.passed[r] !in s'.lh && s'.ops[r] < q
        ensures |s'.lh| + 1 < L.size
      {
        if s'.lh != s.lh {
          RoomForTwo(L, q, s', p, r);
        }
      }
    }
  }

  lemma AppendCoherent(L: Layout, s: State, p: Pid, s': State)
    requires Sizes(L, s) && Coherent(L, s) && s.mode.Running? && Next(L, s, Append(p), s') && Sizes(L, s')
    ensures Coherent(L, s')
  {
    assert forall c :: Dirty(s', c) == (Dirty(s, c) && c != s.passed[p]);
  }

  lemma AppendUnlogged(L: Layout, s: State, p: Pid, s': State)
    requires Sizes(L, s) && Distinct(s.lh) && Next(L, s, Append(p), s')
    requires forall c: nat | c < |s.disk| && L.Home(c) && c !in s.lh :: s.disk[c] == s.current[c]
    ensures forall c: nat | c < |s.disk| && L.Home(c) && c !in s'.lh :: s'.disk[c] == s'.current[c]
    ensures Distinct(s'.lh) && s'.ops != map[]
  {
    assert s.passed[p] in s'.lh && p in s'.ops;
    assert forall c | c in s.lh :: c in s'.lh;
  }

  lemma KeepAppend(L: Layout, q: nat, s: State, p: Pid, s': State)
    requires Enough(L, q) && Inv(L, q, s) && Next(L, s, Append(p), s') && Reserved(s') && Within(q, s')
    ensures Inv(L, q, s')
  {
    assert s.mode.Running?;
    AppendSizes(L, q, s, p, s');
    AppendChecks(L, q, s, p, s');
    AppendCoherent(L, s, p, s');
    AppendUnlogged(L, s, p, s');
  }

  /** With no bunpin unaccounted for, only unused buffers are recycled. */
  lemma EvictUnused(s: State, b: nat)
    requires s.missing == multiset{} && Refs(s, b) == 0
    ensures b !in s.held && b !in Pinned(s)
  {
  }

  lemma DropCoherent(L: Layout, s: State, st: Step, s': State)
    requires Sizes(L, s) && Coherent(L, s) && Next(L, s, st, s') && (st.Brelse? || st.Evict?)
    requires st.Evict? ==> st.b !in s.held && st.b !in Pinned(s)
    ensures Coherent(L, s')
  {
    assert Pinned(s') == Pinned(s);
    assert forall c :: Dirty(s', c) == Dirty(s, c);
  }

  lemma KeepDrop(L: Layout, q: nat, s: State, st: Step, s': State)
    requires Inv(L, q, s) && Next(L, s, st, s') && (st.Brelse? || st.Evict?) && s.missing == multiset{}
    ensures Inv(L, q, s')
  {
    LiveCoherent(L, q, s);
    if st.Evict? {
      EvictUnused(s, st.b);
    }
    DropCoherent(L, s, st, s');
    CacheOnly(L, q, s, s');
  }

  lemma EndCoherent(L: Layout, s: State, p: Pid, s': State)
    requires Sizes(L, s) && Coherent(L, s) && Enabled(L, s, End(p)) && Sizes(L, s')
    requires s'.cache == s.cache && s'.held == s.held && s'.lh == s.lh && s'.ops == s.ops - {p}
    requires s'.disk == s.disk && s'.current == s.current
    requires s'.mode == s.mode || s'.mode == Committing(s.disk, 0)
    ensures Coherent(L, s')
  {
    assert s.lh[0..] == s.lh;
    assert Pinned(s') == Pinned(s);
    forall c | Dirty(s', c)
      ensures s'.held[c].pid in s'.ops
    {
      assert Dirty(s, c);
    }
    assert forall c | c in s'.cache && !Dirty(s', c) :: !Dirty(s, c);
  }

  lemma EndLast(L: Layout, q: nat, s: State, s': State)
    requires Sizes(L, s) && RunningOk(L, q, s) && Sizes(L, s') && Coherent(L, s') && s.passed == map[]
    requires s' == s.(ops := map[], mode := Committing(s.disk, 0), points := s.points + [s.current],
                      saved := if s.lh == [] then |s.points| else s.saved)
    ensures CommittingOk(L, s', s.disk, 0)
  {
    assert s.lh[..0] == [];
    assert s'.points[|s'.points| - 1] == s.current;
    assert Durable(s') == if s.lh == [] then s.current else Durable(s);
  }

  lemma KeepEnd(L: Layout, q: nat, s: State, p: Pid, s': State)
    requires Inv(L, q, s) && Next(L, s, End(p), s')
    ensures Inv(L, q, s')
  {
    EndCoherent(L, s, p, s');
    if s.ops - {p} == map[] {
      assert s.passed == map[] by {
        assert forall r | r in s.passed :: r in s.ops && r != p;
        assert forall r | r in s.ops && r != p :: r in s.ops - {p};
      }
      EndLast(L, q, s, s');
    }
  }

  lemma AllTaken(L: Layout, s: State)
    requires NBUF <= L.size && NBUF <= |s.lh| && Distinct(s.lh)
    requires forall b | b in s.lh :: b in s.cache && L.Home(b)
    ensures !Spare(s, {s.lh[0], L.Slot(0)})
  {
    assert Open(0);
    var listed, b := Elems(s.lh), L.Slot(0);
    DistinctSize(s.lh);
    assert b !in listed by { assert !L.Home(b); }
    SubsetSize(listed + {b}, s.cache.Keys + {s.lh[0], b});
  }

  /** A list that the log has no room for has every buffer pinned: its commit cannot read the first slot. */
  lemma Stalled(L: Layout, s: State, base: Disk)
    requires Sizes(L, s) && s.mode == Committing(base, 0) && Coherent(L, s) && Distinct(s.lh)
    requires !L.Loggable(s.lh, |s.disk|)
    ensures !CanWrite(L, s)
  {
    assert s.lh[0..] == s.lh;
    assert forall b | b in s.lh :: b in Pinned(s);
    AllTaken(L, s);
  }

  /** A commit, at its k-th write, of a list that fits. */
  ghost predicate InCommit(L: Layout, s: State, base: Disk, k: nat) {
    Sizes(L, s) && L.Loggable(s.lh, |s.disk|) && s.mode == Committing(base, k) && CommittingOk(L, s, base, k)
  }

  /** The slots inside the log area are not cached as home blocks. */
  lemma SlotOnDisk(L: Layout, s: State, j: nat)
    requires Sizes(L, s) && Coherent(L, s) && j < |s.lh| < L.size
    ensures L.Slot(j) < |s.disk| && Read(s, L.Slot(j)) == s.disk[L.Slot(j)]
  {
    assert !L.Home(L.Slot(j));
  }

  lemma IOAgrees(L: Layout, s: State, base: Disk, k: nat)
    requires Sizes(L, s) && s.mode == Committing(base, k) && CanWrite(L, s)
    requires |base| == |s.disk| && L.Fits(base) && L.Loggable(s.lh, |s.disk|)
    requires CommitAt(base, L, s.lh, s.current, k, s.disk)
    requires k < |s.lh| ==> Read(s, s.lh[k]) == s.current[s.lh[k]]
    requires var j := k - |s.lh| - 1; 0 <= j < |s.lh| ==> Read(s, L.Slot(j)) == s.disk[L.Slot(j)]
    ensures CommitIO(L, s) == CommitWrites(base, L, s.lh, s.current)[k]
  {
  }

  /** The write a committing process does is the one the commit's write list has next. */
  lemma CommitIOAgrees(L: Layout, s: State, base: Disk, k: nat)
    requires InCommit(L, s, base, k) && CanWrite(L, s)
    ensures CommitIO(L, s) == CommitWrites(base, L, s.lh, s.current)[k]
  {
    if k < |s.lh| {
      assert s.lh[k] in s.lh && !Dirty(s, s.lh[k]);
      ReadsCommitting(L, s, base, s.lh[k]);
    } else if |s.lh| < k <= 2 * |s.lh| {
      SlotOnDisk(L, s, k - |s.lh| - 1);
    }
    IOAgrees(L, s, base, k);
  }

  lemma PinnedShrinks(s: State, s': State)
    requires s.mode.Committing? && s'.mode == Committing(s.mode.base, s.mode.k + 1) && s'.lh == s.lh
    ensures forall b | b in Pinned(s') :: b in Pinned(s)
  {
    var m, m' := Installed(|s.lh|, s.mode.k), Installed(|s.lh|, s.mode.k + 1);
    assert s.lh[m'..] == s.lh[m..][m' - m..];
  }

  /** What the write w does to a committing state, at its k-th write. */
  ghost predicate Moved(L: Layout, s: State, base: Disk, k: nat, w: Write, s': State, k': nat) {
    && w.bno < |s.disk| && k' == k + 1
    && s' == s.(disk := s.disk[w.bno := w.data], cache := s'.cache, mode := Committing(base, k'), saved := s'.saved)
    && (s'.cache == s.cache || (L.Home(w.bno) && s'.cache == s.cache[w.bno := w.data]))
    && s'.saved == if k == |s.lh| && s.points != [] then |s.points| - 1 else s.saved
  }

  lemma Moves(L: Layout, s: State, base: Disk, k: nat, k': nat)
    requires CanWrite(L, s) && s.mode == Committing(base, k) && k' == k + 1
    ensures Moved(L, s, base, k, CommitIO(L, s), DoCommitWrite(L, s), k')
  {
  }

  lemma MovedCoherent(L: Layout, s: State, base: Disk, k: nat, w: Write, s': State, k': nat)
    requires Sizes(L, s) && Coherent(L, s) && s.mode == Committing(base, k) && Moved(L, s, base, k, w, s', k')
    requires Sizes(L, s') && (L.Home(w.bno) ==> w.data == s.current[w.bno])
    ensures Coherent(L, s')
  {
    PinnedShrinks(s, s');
    assert forall c :: Dirty(s', c) == Dirty(s, c);
  }

  lemma MovedDisk(L: Layout, s: State, base: Disk, k: nat, w: Write, s': State, k': nat)
    requires Sizes(L, s) && L.Loggable(s.lh, |s.disk|) && |base| == |s.disk| && L.Fits(base) && k < CommitLength(s.lh)
    requires CommitAt(base, L, s.lh, s.current, k, s.disk) && w == CommitWrites(base, L, s.lh, s.current)[k]
    requires Moved(L, s, base, k, w, s', k')
    ensures Sizes(L, s') && CommitAt(base, L, s'.lh, s'.current, k', s'.disk)
  {
    CommitStep(base, L, s.lh, s.current, k, s.disk, w, k', s'.disk);
  }

  /** What goes to a home block is what was logged. */
  lemma CommitInstalls(L: Layout, s: State, base: Disk, k: nat, w: Write)
    requires Sizes(L, s) && L.Loggable(s.lh, |s.disk|) && |base| == |s.disk| && L.Fits(base) && k < CommitLength(s.lh)
    requires w == CommitWrites(base, L, s.lh, s.current)[k]
    ensures L.Home(w.bno) ==> w.data == s.current[w.bno]
  {
    assert !L.Home(L.start) && (k < |s.lh| ==> !L.Home(L.Slot(k)));
  }

  lemma MovedFrame(L: Layout, s: State, base: Disk, k: nat, w: Write, s': State, k': nat)
    requires Sizes(L, s) && CommitFrame(L, s, base, k) && k < CommitLength(s.lh) && Sizes(L, s')
    requires Moved(L, s, base, k, w, s', k')
    ensures CommitFrame(L, s', base, k')
  {
  }

  lemma CommittingInv(L: Layout, q: nat, s: State, base: Disk, k: nat)
    requires Sizes(L, s) && s.mode == Committing(base, k) && CommitFrame(L, s, base, k) && Coherent(L, s)
    requires L.Loggable(s.lh, |s.disk|) && CommitAt(base, L, s.lh, s.current, k, s.disk)
    ensures Inv(L, q, s)
  {
  }

  lemma KeepMoved(L: Layout, q: nat, s: State, base: Disk, k: nat, w: Write, s': State, k': nat)
    requires InCommit(L, s, base, k) && k < CommitLength(s.lh)
    requires w == CommitWrites(base, L, s.lh, s.current)[k] && Moved(L, s, base, k, w, s', k')
    ensures Inv(L, q, s')
  {
    MovedDisk(L, s, base, k, w, s', k');
    CommitInstalls(L, s, base, k, w);
    MovedCoherent(L, s, base, k, w, s', k');
    MovedFrame(L, s, base, k, w, s', k');
    CommittingInv(L, q, s', base, k');
  }

  lemma WritesInCommit(L: Layout, q: nat, s: State, base: Disk, k: nat)
    requires Inv(L, q, s) && s.mode == Committing(base, k) && CanWrite(L, s)
    ensures InCommit(L, s, base, k)
  {
    if !L.Loggable(s.lh, |s.disk|) {
      Stalled(L, s, base);
    }
  }

  lemma KeepInCommit(L: Layout, q: nat, s: State, base: Disk, k: nat, s': State, k': nat)
    requires InCommit(L, s, base, k) && CanWrite(L, s) && s' == DoCommitWrite(L, s) && k' == k + 1
    ensures Inv(L, q, s')
  {
    CommitIOAgrees(L, s, base, k);
    Moves(L, s, base, k, k');
    KeepMoved(L, q, s, base, k, CommitIO(L, s), s', k');
  }

  lemma KeepCommitWrite(L: Layout, q: nat, s: State, s': State)
    requires Inv(L, q, s) && Next(L, s, CommitWrite, s')
    ensures Inv(L, q, s')
  {
    WritesInCommit(L, q, s, s.mode.base, s.mode.k);
    KeepInCommit(L, q, s, s.mode.base, s.mode.k, s', s.mode.k + 1);
  }

  lemma DoneCoherent(L: Layout, s: State, s': State)
    requires Sizes(L, s) && Coherent(L, s) && s' == s.(mode := Running, lh := [])
    ensures Sizes(L, s') && Coherent(L, s')
  {
    assert forall c :: Dirty(s', c) == Dirty(s, c);
  }

  lemma DoneDisk(base: Disk, L: Layout, lh: seq<nat>, current: Disk, disk: Disk)
    requires Clean(base, L) && |base| == |disk| == |current| && Written(base, L, lh, current, CommitLength(lh), disk)
    requires forall b: nat | b < |base| && L.Home(b) && b !in lh :: base[b] == current[b]
    ensures Clean(disk, L) && SameHome(disk, current, L)
  {
    assert lh[..|lh|] == lh;
  }

  lemma KeepCommitDone(L: Layout, q: nat, s: State, s': State)
    requires Inv(L, q, s) && Next(L, s, CommitDone, s')
    ensures Inv(L, q, s')
  {
    DoneDisk(s.mode.base, L, s.lh, s.current, s.disk);
    DoneCoherent(L, s, s');
  }

  /** Any disk a commit can leave recovers to the old or, once the header is written, the new home blocks. */
  lemma CrashWritten(base: Disk, L: Layout, lh: seq<nat>, current: Disk, k: nat, disk: Disk)
    requires Clean(base, L) && |base| == |disk| == |current| && Written(base, L, lh, current, k, disk)
    requires k <= CommitLength(lh) && forall b: nat | b < |base| && L.Home(b) && b !in lh :: base[b] == current[b]
    ensures DiskOk(disk, L) && SameHome(if k <= |lh| then base else current, Recover(disk, L), L)
  {
    if !L.Loggable(lh, |disk|) {
      RecoverClean(base, L);
    } else if k <= |lh| {
      CrashBeforeHeader(base, L, lh, current, k, disk);
    } else if k <= 2 * |lh| + 1 {
      CrashDuringInstall(base, L, lh, current, k, disk);
    } else {
      CrashAfterClear(base, L, lh, current, disk);
    }
  }

  lemma CrashInCommit(L: Layout, s: State, base: Disk, k: nat)
    requires Sizes(L, s) && CommittingOk(L, s, base, k)
    ensures DiskOk(s.disk, L) && SameHome(Recover(s.disk, L), Durable(s), L)
  {
    CrashWritten(base, L, s.lh, s.current, k, s.disk);
  }

  /** A crash in any mode leaves a disk that recovers to the last saved point. */
  lemma CrashRecovers(L: Layout, q: nat, s: State)
    requires Inv(L, q, s)
    ensures DiskOk(s.disk, L) && SameHome(Recover(s.disk, L), Durable(s), L)
  {
    match s.mode
    case Running =>
      RecoverLast(s.disk, L);
      assert RecoverWrites(s.disk, L)[..0] == [];
    case Committing(base, k) => CrashInCommit(L, s, base, k);
    case Down =>
    case Recovering(base, k) => RecoveryRestartable(base, L, k);
  }

  lemma KeepCrash(L: Layout, q: nat, s: State, s': State)
    requires Inv(L, q, s) && Next(L, s, Crash, s')
    ensures Inv(L, q, s')
  {
    CrashRecovers(L, q, s);
    assert Durable(s') == Durable(s);
  }

  lemma KeepBoot(L: Layout, q: nat, s: State, s': State)
    requires Inv(L, q, s) && Next(L, s, Boot, s')
    ensures Inv(L, q, s')
  {
    assert RecoverWrites(s.disk, L)[..0] == [];
  }

  /** The write a recovering machine does is the one the recovery's write list has next. */
  lemma RecoverIOAgrees(L: Layout, s: State, base: Disk, k: nat)
    requires Sizes(L, s) && s.mode == Recovering(base, k) && RecoveringOk(L, s, base, k) && Enabled(L, s, RecoverWrite)
    ensures k <= |s.lh| && RecoverIO(L, s) == RecoverWrites(base, L)[k]
  {
    RecoverPrefix(base, L, k);
    assert !L.Home(L.start) && L.start !in s.lh[..k];
    assert k < |s.lh| ==> !L.Home(L.Slot(k)) && L.Slot(k) !in s.lh[..k];
  }

  /** A block recovered is cached as it is on disk. */
  lemma RecoverCached(L: Layout, s: State, k: nat, w: Write, s': State)
    requires Sizes(L, s) && k <= |s.lh| && w.bno < |s.disk| && w.bno == if k < |s.lh| then s.lh[k] else L.start
    requires forall b | b in s.cache :: b in s.lh && s.cache[b] == s.disk[b]
    requires forall j | 0 <= j < |s.lh| && j < k :: s.lh[j] in s.cache
    requires s'.disk == s.disk[w.bno := w.data] && s'.lh == s.lh
    requires s'.cache == if k < |s.lh| then s.cache[w.bno := w.data] else s.cache
    ensures forall b | b in s'.cache :: b in s'.lh && s'.cache[b] == s'.disk[b]
    ensures forall j | 0 <= j < |s.lh| && j < k + 1 :: s.lh[j] in s'.cache
  {
    assert L.start !in s.lh by { assert !L.Home(L.start); }
  }

  lemma RecoveringNext(L: Layout, s: State, base: Disk, k: nat, s': State, k': nat)
    requires Sizes(L, s) && s.mode == Recovering(base, k) && RecoveringOk(L, s, base, k) && Enabled(L, s, RecoverWrite)
    requires s' == DoRecoverWrite(L, s) && RecoverIO(L, s) == RecoverWrites(base, L)[k] && k' == k + 1
    ensures Sizes(L, s') && RecoveringOk(L, s', base, k')
  {
    ApplyNext(base, RecoverWrites(base, L), k);
    RecoverPrefix(base, L, k);
    RecoverCached(L, s, k, RecoverIO(L, s), s');
  }

  lemma KeepRecovering(L: Layout, s: State, base: Disk, k: nat, s': State, k': nat)
    requires Sizes(L, s) && s.mode == Recovering(base, k) && RecoveringOk(L, s, base, k) && Enabled(L, s, RecoverWrite)
    requires s' == DoRecoverWrite(L, s) && k' == k + 1
    ensures Sizes(L, s') && s'.mode == Recovering(base, k') && RecoveringOk(L, s', base, k')
  {
    RecoverIOAgrees(L, s, base, k);
    RecoveringNext(L, s, base, k, s', k');
  }

  lemma KeepRecoverWrite(L: Layout, q: nat, s: State, s': State)
    requires Inv(L, q, s) && Next(L, s, RecoverWrite, s')
    ensures Inv(L, q, s')
  {
    KeepRecovering(L, s, s.mode.base, s.mode.k, s', s.mode.k + 1);
  }

  /** A recovered disk, with nothing in memory but cached copies of it, is a good running state. */
  lemma FreshRunning(L: Layout, q: nat, s: State)
    requires Sizes(L, s) && Clean(s.disk, L) && SameHome(s.disk, Durable(s), L) && s.current == s.disk
    requires s.held == map[] && s.ops == map[] && s.passed == map[] && s.lh == [] && s.mode.Running?
    requires forall b | b in s.cache :: b < |s.disk| && L.Home(b) && s.cache[b] == s.disk[b]
    requires s.saved + 1 == |s.points|
    ensures RunningOk(L, q, s)
  {
  }

  lemma KeepRecoverDone(L: Layout, q: nat, s: State, s': State)
    requires Inv(L, q, s) && Next(L, s, RecoverDone, s')
    ensures Inv(L, q, s')
  {
    var base, k := s.mode.base, s.mode.k;
    assert RecoverWrites(base, L)[..k] == RecoverWrites(base, L);
    RecoverTwice(base, L);
    FreshRunning(L, q, s');
  }

  predicate OnCache(st: Step) { st.Bread? || st.Modify? || st.Brelse? || st.Evict? }

  predicate OnLog(st: Step) { st.Begin? || st.Check? || st.Append? || st.End? }

  predicate ByProcess(st: Step) { OnCache(st) || OnLog(st) }

  lemma KeepOnCache(L: Layout, q: nat, s: State, st: Step, s': State)
    requires Inv(L, q, s) && Next(L, s, st, s') && OnCache(st) && s.missing == multiset{}
    ensures Inv(L, q, s')
  {
    match st
    case Bread(p, b) => KeepBread(L, q, s, p, b, s');
    case Modify(p, b, v) => KeepModify(L, q, s, p, b, v, s');
    case Brelse(p, b) => KeepDrop(L, q, s, st, s');
    case Evict(b) => KeepDrop(L, q, s, st, s');
  }

  lemma KeepOnLog(L: Layout, q: nat, s: State, st: Step, s': State)
    requires Inv(L, q, s) && Next(L, s, st, s') && OnLog(st) && Enough(L, q) && Reserved(s') && Within(q, s')
    ensures Inv(L, q, s')
  {
    match st
    case Begin(p) => KeepBegin(L, q, s, p, s');
    case Check(p, b) => KeepCheck(L, q, s, p, b, s');
    case Append(p) => KeepAppend(L, q, s, p, s');
    case End(p) => KeepEnd(L, q, s, p, s');
  }

  lemma KeepDisk(L: Layout, q: nat, s: State, st: Step, s': State)
    requires Inv(L, q, s) && Next(L, s, st, s') && !ByProcess(st)
    ensures Inv(L, q, s')
  {
    match st
    case CommitWrite => KeepCommitWrite(L, q, s, s');
    case CommitDone => KeepCommitDone(L, q, s, s');
    case Crash => KeepCrash(L, q, s, s');
    case Boot => KeepBoot(L, q, s, s');
    case RecoverWrite => KeepRecoverWrite(L, q, s, s');
    case RecoverDone => KeepRecoverDone(L, q, s, s');
  }

  /** Every step keeps the invariant, as long as reference counts have not been upset by a recovery. */
  lemma KeepInv(L: Layout, q: nat, s: State, st: Step, s': State)
    requires Inv(L, q, s) && Next(L, s, st, s')
    requires Enough(L, q) && Reserved(s') && Within(q, s') && (ByProcess(st) ==> s.missing == multiset{})
    ensures Inv(L, q, s')
  {
    if OnCache(st) {
      KeepOnCache(L, q, s, st, s');
    } else if OnLog(st) {
      KeepOnLog(L, q, s, st, s');
    } else {
      KeepDisk(L, q, s, st, s');
    }
  }

  // ---- Whole runs

  /** A step, as a fact that stays closed until Open unfolds it. */
  ghost predicate Stepped(L: Layout, s: State, st: Step, s': State) {
    forall x {:trigger Open(x)} | Open(x) :: Next(L, s, st, s')
  }

  /** ss is a run of the machine taking the steps sts. */
  ghost predicate Run(L: Layout, ss: seq<State>, sts: seq<Step>) {
    && |ss| == |sts| + 1
    && Init(L, ss[0])
    && forall i | 0 <= i < |sts| :: Stepped(L, ss[i], sts[i], ss[i + 1])
  }

  /** In the first i steps, no operation takes more than q slots. */
  ghost predicate Frugal(q: nat, ss: seq<State>, i: nat)
    requires i < |ss|
  {
    forall j | 0 <= j <= i :: Within(q, ss[j])
  }

  /** In the first i steps, no process goes on after a recovery that found a non-empty log;
      the machine may crash and boot again. */
  ghost predicate Balanced(ss: seq<State>, sts: seq<Step>, i: nat)
    requires i < |ss| == |sts| + 1
  {
    forall j | 0 <= j < i && ByProcess(sts[j]) :: ss[j].missing == multiset{}
  }

  lemma StepReserved(L: Layout, s: State, st: Step, s': State)
    requires Reserved(s) && Within(MAXOPBLOCKS, s) && Stepped(L, s, st, s')
    ensures Reserved(s')
  {
    assert Open(0);
    KeepReserved(L, s, st, s');
  }

  lemma StepBuffered(L: Layout, s: State, st: Step, s': State)
    requires Buffered(L, s) && Stepped(L, s, st, s')
    ensures Buffered(L, s')
  {
    assert Open(0);
    KeepBuffered(L, s, st, s');
  }

  lemma StepInv(L: Layout, q: nat, s: State, st: Step, s': State)
    requires Inv(L, q, s) && Stepped(L, s, st, s')
    requires Enough(L, q) && Reserved(s') && Within(q, s') && (ByProcess(st) ==> s.missing == multiset{})
    ensures Inv(L, q, s')
  {
    assert Open(0);
    KeepInv(L, q, s, st, s');
  }

  lemma InitInv(L: Layout, q: nat, s: State)
    requires Init(L, s)
    ensures Inv(L, q, s) && Reserved(s)
  {
    assert Sum(map[]) == 0;
  }

  /** The reservation holds in every state of every run, whatever the log's size and however its
      recoveries went. */
  lemma {:induction false} RunReserved(L: Layout, ss: seq<State>, sts: seq<Step>, i: nat)
    requires Run(L, ss, sts) && i < |ss| && Frugal(MAXOPBLOCKS, ss, i)
    ensures Reserved(ss[i])
    decreases i
  {
    if i == 0 {
      InitInv(L, 0, ss[0]);
    } else {
      RunReserved(L, ss, sts, i - 1);
      StepReserved(L, ss[i - 1], sts[i - 1], ss[i]);
    }
  }

  /** The buffers suffice in every state of every run: a bget that found none has panicked. */
  lemma {:induction false} RunBuffered(L: Layout, ss: seq<State>, sts: seq<Step>, i: nat)
    requires Run(L, ss, sts) && i < |ss|
    ensures Buffered(L, ss[i])
    decreases i
  {
    if i > 0 {
      RunBuffered(L, ss, sts, i - 1);
      StepBuffered(L, ss[i - 1], sts[i - 1], ss[i]);
    }
  }

  lemma {:induction false} RunInv(L: Layout, q: nat, ss: seq<State>, sts: seq<Step>, i: nat)
    requires Run(L, ss, sts) && i < |ss| && Enough(L, q) && Frugal(q, ss, i) && Balanced(ss, sts, i)
    ensures Inv(L, q, ss[i])
    decreases i
  {
    if i == 0 {
      InitInv(L, q, ss[0]);
    } else {
      RunInv(L, q, ss, sts, i - 1);
      RunReserved(L, ss, sts, i);
      StepInv(L, q, ss[i - 1], sts[i - 1], ss[i]);
    }
  }

  /** A crash now recovers the saved point. */
  ghost predicate Consistent(L: Layout, s: State) {
    DiskOk(s.disk, L) && s.saved < |s.points| && SameHome(s.points[s.saved], Recover(s.disk, L), L)
  }

  /** A crash at any moment of any run, after any earlier crashes, recovers to the file system as it
      was when the last outstanding operation ended: the last time, or, while the header of the commit
      that followed is still to be written, the time before. It never recovers part of an operation. */
  lemma CrashConsistent(L: Layout, q: nat, ss: seq<State>, sts: seq<Step>, i: nat)
    requires Run(L, ss, sts) && i < |ss| && Enough(L, q) && Frugal(q, ss, i) && Balanced(ss, sts, i)
    ensures Consistent(L, ss[i])
    ensures ss[i].saved + (if Undecided(ss[i]) then 2 else 1) == |ss[i].points|
  {
    RunInv(L, q, ss, sts, i);
    CrashRecovers(L, q, ss[i]);
  }

  lemma SavedStep(L: Layout, s: State, st: Step, s': State)
    requires Stepped(L, s, st, s') && s.saved < |s.points|
    ensures s.saved <= s'.saved < |s'.points| && s'.points[..s.saved + 1] == s.points[..s.saved + 1]
  {
    assert Open(0);
  }

  lemma Shorter(a: seq<Disk>, b: seq<Disk>, n: nat, m: nat)
    requires m <= n <= |a| && n <= |b| && a[..n] == b[..n]
    ensures a[..m] == b[..m]
  {
    assert a[..m] == a[..n][..m] && b[..m] == b[..n][..m];
  }

  /** What has once been saved stays so, in every later state of every run. */
  lemma {:induction false} SavedStays(L: Layout, ss: seq<State>, sts: seq<Step>, i: nat, j: nat)
    requires Run(L, ss, sts) && i <= j < |ss|
    ensures ss[i].saved <= ss[j].saved < |ss[j].points| && ss[i].saved < |ss[i].points|
    ensures ss[j].points[..ss[i].saved + 1] == ss[i].points[..ss[i].saved + 1]
    decreases j
  {
    if i < j {
      SavedStays(L, ss, sts, i, j - 1);
      SavedStep(L, ss[j - 1], sts[j - 1], ss[j]);
      Shorter(ss[j].points, ss[j - 1].points, ss[j - 1].saved + 1, ss[i].saved + 1);
    } else if i > 0 {
      SavedStays(L, ss, sts, i - 1, i - 1);
      SavedStep(L, ss[i - 1], sts[i - 1], ss[i]);
    }
  }

  /** With the log idle and no operation outstanding, a crash recovers exactly the current file system. */
  lemma QuietIsDurable(L: Layout, q: nat, ss: seq<State>, sts: seq<Step>, i: nat)
    requires Run(L, ss, sts) && i < |ss| && Enough(L, q) && Frugal(q, ss, i) && Balanced(ss, sts, i)
    requires ss[i].mode.Running? && ss[i].ops == map[]
    ensures DiskOk(ss[i].disk, L) && SameHome(ss[i].current, Recover(ss[i].disk, L), L)
  {
    RunInv(L, q, ss, sts, i);
    CrashRecovers(L, q, ss[i]);
  }

  /** Cache transparency over every run, and write-ahead: outside a commit's install phase the home
      blocks on disk are still those of the last saved point, and no pinned buffer is ever recycled. */
  lemma CacheTransparent(L: Layout, q: nat, ss: seq<State>, sts: seq<Step>, i: nat, b: nat)
    requires Run(L, ss, sts) && i < |ss| && Enough(L, q) && Frugal(q, ss, i) && Balanced(ss, sts, i)
    requires Live(ss[i]) && b < |ss[i].disk| && L.Home(b)
    ensures |ss[i].current| == |ss[i].disk| && ss[i].saved < |ss[i].points| && |Durable(ss[i])| == |ss[i].disk|
    ensures !Dirty(ss[i], b) ==> Read(ss[i], b) == ss[i].current[b]
    ensures ss[i].mode.Running? || ss[i].mode.k <= |ss[i].lh| ==> ss[i].disk[b] == Durable(ss[i])[b]
    ensures forall c | c in Pinned(ss[i]) :: c in ss[i].cache
  {
    RunInv(L, q, ss, sts, i);
    LiveCoherent(L, q, ss[i]);
    if !Dirty(ss[i], b) {
      ReadsCurrent(L, q, ss[i], b);
    }
  }

  /** No run makes log_write panic on an operation that still has an unused slot, provided the log
      area is larger than LOGSIZE; with mkfs's nlog == LOGSIZE it takes two unused slots. */
  lemma NoLogPanic(L: Layout, ss: seq<State>, sts: seq<Step>, i: nat, p: Pid)
    requires Run(L, ss, sts) && i < |ss| && Frugal(MAXOPBLOCKS, ss, i) && p in ss[i].ops
    ensures L.size > LOGSIZE && ss[i].ops[p] + 1 <= MAXOPBLOCKS ==> !TooBig(|ss[i].lh|, L.size)
    ensures L.size == LOGSIZE && ss[i].ops[p] + 2 <= MAXOPBLOCKS ==> !TooBig(|ss[i].lh|, L.size)
  {
    RunReserved(L, ss, sts, i);
    var s := ss[i];
    SumRemove(s.ops, p);
    SumBound(s.ops - {p});
    assert |s.ops - {p}| == |s.ops| - 1 by { assert (s.ops - {p}).Keys == s.ops.Keys - {p}; }
  }

  // ---- Slots and blocks

  /** The blocks that p has passed to log_write since it began its operation, i steps into a run. */
  ghost function LoggedBy(ss: seq<State>, sts: seq<Step>, i: nat, p: Pid): set<nat>
    requires i < |ss| == |sts| + 1
  {
    if i == 0 || sts[i - 1] == Begin(p) then {}
    else if sts[i - 1] == Append(p) && p in ss[i - 1].passed then
      LoggedBy(ss, sts, i - 1, p) + {ss[i - 1].passed[p]}
    else LoggedBy(ss, sts, i - 1, p)
  }

  /** An operation that has logged the blocks B has taken a slot for each at most, and all are listed. */
  ghost predicate Listed(s: State, p: Pid, B: set<nat>) {
    && (!s.mode.Running? ==> s.ops == map[])
    && (p in s.ops ==> s.ops[p] <= |B| && forall b | b in B :: b in s.lh)
  }

  lemma ListedAppend(s: State, p: Pid, B: set<nat>, r: Pid, b: nat)
    requires Listed(s, p, B) && s.mode.Running? && r in s.ops && b in s.cache && b < |s.current|
    ensures Listed(DoAppend(s, r, b), p, if r == p then B + {b} else B)
  {
    var s' := DoAppend(s, r, b);
    assert forall c | c in s.lh :: c in s'.lh;
    assert b in s'.lh;
    if b in B {
      assert B + {b} == B;
    } else {
      assert |B + {b}| == |B| + 1;
    }
  }

  lemma ListedStep(L: Layout, s: State, st: Step, s': State, p: Pid, B: set<nat>)
    requires Listed(s, p, B) && Stepped(L, s, st, s')
    ensures Listed(s', p, if st == Begin(p) then {}
                          else if st == Append(p) && p in s.passed then B + {s.passed[p]}
                          else B)
  {
    assert Open(0);
    if st.Append? {
      ListedAppend(s, p, B, st.p, s.passed[st.p]);
    }
  }

  /** In every run an operation has taken at most one slot for each block it has logged. */
  lemma {:induction false} SlotsAreBlocks(L: Layout, ss: seq<State>, sts: seq<Step>, i: nat, p: Pid)
    requires Run(L, ss, sts) && i < |ss|
    ensures Listed(ss[i], p, LoggedBy(ss, sts, i, p))
    decreases i
  {
    if i > 0 {
      SlotsAreBlocks(L, ss, sts, i - 1, p);
      ListedStep(L, ss[i - 1], sts[i - 1], ss[i], p, LoggedBy(ss, sts, i - 1, p));
    }
  }

  /** log_write does not panic on an operation that logs at most MAXOPBLOCKS - 2 different blocks. */
  lemma FewBlocksNoPanic(L: Layout, ss: seq<State>, sts: seq<Step>, i: nat, p: Pid)
    requires Run(L, ss, sts) && i < |ss| && Frugal(MAXOPBLOCKS, ss, i) && p in ss[i].ops && L.size >= LOGSIZE
    requires |LoggedBy(ss, sts, i, p)| <= MAXOPBLOCKS - 2
    ensures !TooBig(|ss[i].lh|, L.size)
  {
    SlotsAreBlocks(L, ss, sts, i, p);
    NoLogPanic(L, ss, sts, i, p);
  }
}
