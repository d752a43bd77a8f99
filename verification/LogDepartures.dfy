/** Runs in which the log does not keep its promises, and the exact conditions that exclude them. */
module LogDepartures {
  import opened Lists
  import opened Blocks
  import opened Folding
  import opened Params
  import opened RedoLog
  import opened LogProtocol

  ghost predicate Good(s: State, q: nat, even: bool) {
    Within(q, s) && (even ==> s.missing == multiset{})
  }

  ghost predicate Leads(L: Layout, a: State, b: State, q: nat, even: bool, ss: seq<State>, sts: seq<Step>) {
    && |ss| == |sts| + 1 && ss[0] == a && ss[|sts|] == b
    && (forall i | 0 <= i < |sts| :: Stepped(L, ss[i], sts[i], ss[i + 1]) && !sts[i].Crash?)
    && (forall i | 0 <= i < |ss| :: Good(ss[i], q, even))
  }

  // ---- Building runs

  /** Some steps lead from a to b without a crash; in every state operations have taken at most q slots, and there
      are no unmatched bunpins if even is set. */
  ghost predicate Path(L: Layout, a: State, b: State, q: nat, even: bool) {
    exists ss: seq<State>, sts: seq<Step> :: Leads(L, a, b, q, even, ss, sts)
  }

  lemma Start(L: Layout, a: State, q: nat, even: bool)
    requires Good(a, q, even)
    ensures Path(L, a, a, q, even)
  {
    assert Leads(L, a, a, q, even, [a], []);
  }

  lemma Go(L: Layout, a: State, s: State, q: nat, even: bool, st: Step, s': State)
    requires Path(L, a, s, q, even) && Next(L, s, st, s') && !st.Crash? && Good(s', q, even)
    ensures Path(L, a, s', q, even)
  {
    var ss, sts :| Leads(L, a, s, q, even, ss, sts);
    assert Leads(L, a, s', q, even, ss + [s'], sts + [st]);
  }

  /** Running, with no buffer held and no log_write under way. */
  predicate Quiet(s: State) { s.mode.Running? && s.held == map[] && s.passed == map[] }

  /** bread, a change, log_write and brelse of a block not logged so far. */
  ghost function Logged(s: State, p: Pid, b: nat, v: Block): State
    requires p in s.ops && b < |s.current|
  {
    s.(cache := s.cache[b := v], lh := s.lh + [b], ops := s.ops[p := s.ops[p] + 1], current := s.current[b := v])
  }

  lemma ReadOne(L: Layout, a: State, s: State, q: nat, even: bool, p: Pid, b: nat, s': State)
    requires Path(L, a, s, q, even) && Good(s, q, even) && s.mode.Running? && p !in s.passed
    requires b < |s.disk| && L.Home(b) && Idle(s, b) && Spare(s, {b})
    requires s' == s.(cache := s.cache[b := Read(s, b)], held := s.held[b := Hold(p, false)])
    ensures Path(L, a, s', q, even) && Good(s', q, even)
  {
    Go(L, a, s, q, even, Bread(p, b), s');
  }

  lemma ChangeOne(L: Layout, a: State, s: State, q: nat, even: bool, p: Pid, b: nat, v: Block, s': State)
    requires Path(L, a, s, q, even) && Good(s, q, even) && s.mode.Running? && p in s.ops && p !in s.passed
    requires Holds(s, p, b) && s' == s.(cache := s.cache[b := v], held := s.held[b := Hold(p, true)])
    ensures Path(L, a, s', q, even) && Good(s', q, even)
  {
    Go(L, a, s, q, even, Modify(p, b, v), s');
  }

  lemma TestOne(L: Layout, a: State, s: State, q: nat, even: bool, p: Pid, b: nat, s': State)
    requires Path(L, a, s, q, even) && Good(s, q, even) && s.mode.Running? && p in s.ops && p !in s.passed
    requires Holds(s, p, b) && !TooBig(|s.lh|, L.size) && s' == s.(passed := s.passed[p := b])
    ensures Path(L, a, s', q, even) && Good(s', q, even)
  {
    Go(L, a, s, q, even, Check(p, b), s');
  }

  /** bread of b, a change, and log_write up to its lock. */
  lemma PassTest(L: Layout, a: State, s: State, q: nat, even: bool, p: Pid, b: nat, v: Block, s': State)
    requires Path(L, a, s, q, even) && Good(s, q, even) && s.mode.Running? && p in s.ops && p !in s.passed
    requires b < |s.disk| && L.Home(b) && b !in s.held && Spare(s, {b}) && !TooBig(|s.lh|, L.size)
    requires s' == s.(cache := s.cache[b := v], held := s.held[b := Hold(p, true)], passed := s.passed[p := b])
    ensures Path(L, a, s', q, even) && Good(s', q, even)
  {
    var s1 := s.(cache := s.cache[b := Read(s, b)], held := s.held[b := Hold(p, false)]);
    ReadOne(L, a, s, q, even, p, b, s1);
    var s2 := s.(cache := s.cache[b := v], held := s.held[b := Hold(p, true)]);
    assert s1.cache[b := v] == s.cache[b := v] && s1.held[b := Hold(p, true)] == s2.held;
    ChangeOne(L, a, s1, q, even, p, b, v, s2);
    TestOne(L, a, s2, q, even, p, b, s');
  }

  /** The rest of log_write, for a new block, and brelse. */
  lemma TakeSlot(L: Layout, a: State, s: State, q: nat, even: bool, p: Pid, b: nat, s': State)
    requires Path(L, a, s, q, even) && Good(s, q, even) && s.mode.Running? && p in s.ops && s.ops[p] < q
    requires p in s.passed && s.passed[p] == b && Holds(s, p, b) && b < |s.current| && b !in s.lh
    requires s' == s.(lh := s.lh + [b], ops := s.ops[p := s.ops[p] + 1], passed := s.passed - {p},
                      held := s.held - {b}, current := s.current[b := s.cache[b]])
    ensures Path(L, a, s', q, even) && Good(s', q, even)
  {
    var s1 := DoAppend(s, p, b);
    Go(L, a, s, q, even, Append(p), s1);
    assert s1.held - {b} == s.held - {b};
    Go(L, a, s1, q, even, Brelse(p, b), s');
  }

  lemma Gone<T>(m: map<nat, T>, k: nat, v: T)
    requires k !in m
    ensures m[k := v] - {k} == m
  {
  }

  lemma GoneFirst<T>(m: map<nat, T>, k: nat, v: T, j: nat, w: T)
    requires k !in m && k != j
    ensures m[k := v][j := w] - {k} == m[j := w]
  {
  }

  lemma LogOne(L: Layout, a: State, s: State, q: nat, even: bool, p: Pid, b: nat, v: Block, s': State)
    requires Path(L, a, s, q, even) && Good(s, q, even) && Quiet(s) && p in s.ops && s.ops[p] < q
    requires b < |s.disk| == |s.current| && L.Home(b) && b !in s.lh && Spare(s, {b}) && !TooBig(|s.lh|, L.size)
    requires s' == Logged(s, p, b, v)
    ensures Path(L, a, s', q, even) && Good(s', q, even)
  {
    var s1 := s.(cache := s.cache[b := v], held := s.held[b := Hold(p, true)], passed := s.passed[p := b]);
    PassTest(L, a, s, q, even, p, b, v, s1);
    Gone(s.held, b, Hold(p, true));
    Gone(s.passed, p, b);
    TakeSlot(L, a, s1, q, even, p, b, s');
  }

  lemma SpareOne(s: State, b: nat)
    requires |s.cache| < NBUF
    ensures Spare(s, {b})
  {
  }

  /** What every stage below has: blocks lo, lo + 1, ... logged so far, and nothing else changed on
      the way from the disk d. */
  ghost predicate Stage(L: Layout, d: Disk, lo: nat, n: nat, ops: map<Pid, nat>, s: State) {
    && Quiet(s) && s.missing == multiset{} && s.disk == d && |s.current| == |d| && s.ops == ops
    && |s.lh| == n && (forall j | 0 <= j < n :: s.lh[j] == lo + j)
    && (forall b | b in s.lh :: b in s.cache) && |s.cache| <= n
    && (forall b: nat | b < |d| && !(lo <= b < lo + n) :: s.current[b] == d[b])
  }

  /** Where the blocks come from: home blocks past the block after the log area. */
  ghost predicate Source(L: Layout, d: Disk, lo: nat, n: nat) {
    L.start + L.size < lo && lo + n <= |d|
  }

  lemma StageReady(L: Layout, d: Disk, lo: nat, n: nat, s: State, b: nat)
    requires Stage(L, d, lo, n, s.ops, s) && Source(L, d, lo, n + 1) && n < NBUF && b == lo + n
    ensures Quiet(s) && b < |s.disk| == |s.current| && L.Home(b) && b !in s.lh && Spare(s, {b})
  {
    SpareOne(s, b);
  }

  lemma LoggedStage(L: Layout, d: Disk, lo: nat, n: nat, s: State, p: Pid, s': State)
    requires Stage(L, d, lo, n, s.ops, s) && p in s.ops && lo + n < |d| && s' == Logged(s, p, lo + n, d[lo + n])
    ensures Stage(L, d, lo, n + 1, s.ops[p := s.ops[p] + 1], s')
  {
    assert |s'.cache| <= n + 1 by { assert s'.cache.Keys == s.cache.Keys + {lo + n}; }
  }

  lemma LogNext(L: Layout, a: State, s: State, q: nat, d: Disk, lo: nat, n: nat, p: Pid) returns (s': State)
    requires Path(L, a, s, q, true) && Good(s, q, true) && Stage(L, d, lo, n, s.ops, s) && p in s.ops && s.ops[p] < q
    requires Source(L, d, lo, n + 1) && !TooBig(n, L.size)
    ensures Path(L, a, s', q, true) && Good(s', q, true)
    ensures Stage(L, d, lo, n + 1, s.ops[p := s.ops[p] + 1], s') && s'.points == s.points && s'.saved == s.saved
  {
    s' := Logged(s, p, lo + n, d[lo + n]);
    StageReady(L, d, lo, n, s, lo + n);
    LogOne(L, a, s, q, true, p, lo + n, d[lo + n], s');
    LoggedStage(L, d, lo, n, s, p, s');
  }

  /** An operation logs m more blocks. */
  lemma {:induction false} LogMany(L: Layout, a: State, s: State, q: nat, d: Disk, lo: nat, n: nat, p: Pid, m: nat)
    returns (s': State)
    requires Path(L, a, s, q, true) && Good(s, q, true) && Stage(L, d, lo, n, s.ops, s) && p in s.ops
    requires s.ops[p] + m <= q
    requires Source(L, d, lo, n + m) && n + m <= LOGSIZE && n + m < L.size
    ensures Path(L, a, s', q, true) && Good(s', q, true)
    ensures Stage(L, d, lo, n + m, s.ops[p := s.ops[p] + m], s') && s'.points == s.points && s'.saved == s.saved
    decreases m
  {
    if m == 0 {
      s' := s;
      assert s.ops[p := s.ops[p] + 0] == s.ops;
    } else {
      var s1 := LogMany(L, a, s, q, d, lo, n, p, m - 1);
      s' := LogNext(L, a, s1, q, d, lo, n + m - 1, p);
      assert s1.ops[p := s1.ops[p] + 1] == s.ops[p := s.ops[p] + m];
    }
  }

  lemma BeginOne(L: Layout, a: State, s: State, q: nat, d: Disk, lo: nat, n: nat, p: Pid) returns (s': State)
    requires Path(L, a, s, q, true) && Good(s, q, true) && Stage(L, d, lo, n, s.ops, s) && p !in s.ops
    requires HasRoom(n, |s.ops|)
    ensures Path(L, a, s', q, true) && Good(s', q, true)
    ensures Stage(L, d, lo, n, s.ops[p := 0], s') && s'.points == s.points && s'.saved == s.saved
  {
    s' := s.(ops := s.ops[p := 0]);
    Go(L, a, s, q, true, Begin(p), s');
  }

  /** An operation that ends while another is outstanding. */
  lemma EndOne(L: Layout, a: State, s: State, q: nat, d: Disk, lo: nat, n: nat, p: Pid, r: Pid) returns (s': State)
    requires Path(L, a, s, q, true) && Good(s, q, true) && Stage(L, d, lo, n, s.ops, s) && p in s.ops && r in s.ops
    requires r != p
    ensures Path(L, a, s', q, true) && Good(s', q, true)
    ensures Stage(L, d, lo, n, s.ops - {p}, s') && s'.points == s.points && s'.saved == s.saved
  {
    s' := s.(ops := s.ops - {p});
    assert r in s'.ops;
    Go(L, a, s, q, true, End(p), s');
  }

  /** With operation 0 open, m operations that log one block each. */
  lemma {:induction false} SmallOps(L: Layout, a: State, s: State, q: nat, d: Disk, lo: nat, m: nat) returns (s': State)
    requires Path(L, a, s, q, true) && Good(s, q, true) && Stage(L, d, lo, 0, map[0 := 0], s) && 1 <= q
    requires Source(L, d, lo, m) && m <= MAXOPBLOCKS && m < L.size
    ensures Path(L, a, s', q, true) && Good(s', q, true)
    ensures Stage(L, d, lo, m, map[0 := 0], s') && s'.points == s.points && s'.saved == s.saved
    decreases m
  {
    if m == 0 {
      s' := s;
    } else {
      var s1 := SmallOps(L, a, s, q, d, lo, m - 1);
      var s2 := BeginOne(L, a, s1, q, d, lo, m - 1, 2);
      var s3 := LogNext(L, a, s2, q, d, lo, m - 1, 2);
      s' := EndOne(L, a, s3, q, d, lo, m, 2, 0);
      assert s3.ops - {2} == map[0 := 0];
    }
  }

  /** From a clean disk to a running machine. */
  lemma BootClean(L: Layout, a: State, q: nat, lo: nat) returns (s: State)
    requires Init(L, a) && Clean(a.disk, L)
    ensures Path(L, a, s, q, true) && Good(s, q, true)
    ensures |s.disk| == |a.disk| && Clean(s.disk, L)
    ensures forall b | 0 <= b < |s.disk| && b != L.start :: s.disk[b] == a.disk[b]
    ensures Stage(L, s.disk, lo, 0, map[], s) && s.points == a.points && s.saved == 0
  {
    var s0 := a.(lh := Header(a.disk[L.start], L, |a.disk|), mode := Recovering(a.disk, 0));
    Start(L, a, q, true);
    Go(L, a, a, q, true, Boot, s0);
    assert s0.lh == [];
    var s1 := s0.(disk := a.disk[L.start := PutHeader(a.disk[L.start], [])], mode := Recovering(a.disk, 1));
    Go(L, a, s0, q, true, RecoverWrite, s1);
    s := DoRecoverDone(s1);
    Go(L, a, s1, q, true, RecoverDone, s);
  }

  // ---- The log overflows

  /** Operations 0 and 1, with m slots taken by others before. */
  lemma OpenTwo(L: Layout, a: State, s: State, q: nat, d: Disk, lo: nat, m: nat) returns (s': State)
    requires Path(L, a, s, q, true) && Good(s, q, true) && Stage(L, d, lo, 0, map[], s)
    requires 1 <= q && Source(L, d, lo, m) && m <= MAXOPBLOCKS && m < L.size
    ensures Path(L, a, s', q, true) && Good(s', q, true)
    ensures Stage(L, d, lo, m, map[0 := 0, 1 := 0], s') && s'.points == s.points && s'.saved == s.saved
  {
    var s1 := BeginOne(L, a, s, q, d, lo, 0, 0);
    var s2 := SmallOps(L, a, s1, q, d, lo, m);
    s' := BeginOne(L, a, s2, q, d, lo, m, 1);
  }

  /** Operations 0 and 1, with a slot left each, and all but one of the log's slots taken. */
  lemma FillLog(L: Layout, a: State, s: State, q: nat, d: Disk, lo: nat) returns (s': State)
    requires Path(L, a, s, q, true) && Good(s, q, true) && Stage(L, d, lo, 0, map[], s)
    requires 1 <= q <= MAXOPBLOCKS && 2 <= L.size <= MAXOPBLOCKS + 2 * q && Source(L, d, lo, L.size)
    ensures Path(L, a, s', q, true) && Good(s', q, true) && s'.ops.Keys == {0, 1} && s'.ops[0] < q && s'.ops[1] < q
    ensures Stage(L, d, lo, L.size - 2, s'.ops, s') && s'.points == s.points && s'.saved == s.saved
  {
    var n := L.size - 2;
    var m := if n < MAXOPBLOCKS then n else MAXOPBLOCKS;
    var x := if n - m < q then n - m else q - 1;
    var s1 := OpenTwo(L, a, s, q, d, lo, m);
    var s2 := LogMany(L, a, s1, q, d, lo, m, 0, x);
    s' := LogMany(L, a, s2, q, d, lo, m + x, 1, n - m - x);
  }

  /** Two processes take their buffers and pass log_write's test. */
  lemma BothPass(L: Layout, a: State, s: State, q: nat, x: nat, vx: Block, y: nat, vy: Block, s': State)
    requires Path(L, a, s, q, true) && Good(s, q, true) && Quiet(s) && 0 in s.ops && 1 in s.ops && |s.cache| + 1 < NBUF
    requires x < y < |s.disk| && L.Home(x) && L.Home(y) && !TooBig(|s.lh|, L.size)
    requires s' == s.(cache := s.cache[x := vx][y := vy], held := s.held[x := Hold(0, true)][y := Hold(1, true)],
                      passed := s.passed[0 := x][1 := y])
    ensures Path(L, a, s', q, true) && Good(s', q, true)
  {
    var s1 := s.(cache := s.cache[x := vx], held := s.held[x := Hold(0, true)], passed := s.passed[0 := x]);
    SpareOne(s, x);
    PassTest(L, a, s, q, true, 0, x, vx, s1);
    assert |s1.cache| < NBUF by { assert s1.cache.Keys == s.cache.Keys + {x}; }
    SpareOne(s1, y);
    PassTest(L, a, s1, q, true, 1, y, vy, s');
  }

  /** What two processes make of s that both log a block, x and y. */
  ghost function Raced(s: State, x: nat, vx: Block, y: nat, vy: Block): State
    requires 0 in s.ops && 1 in s.ops && x < y < |s.current|
  {
    s.(cache := s.cache[x := vx][y := vy], lh := s.lh + [x] + [y], current := s.current[x := vx][y := vy],
       ops := s.ops[0 := s.ops[0] + 1][1 := s.ops[1] + 1])
  }

  /** Then each gets the lock. */
  lemma BothTake(L: Layout, a: State, s0: State, s: State, q: nat, x: nat, vx: Block, y: nat, vy: Block, s': State)
    requires Path(L, a, s, q, true) && Good(s, q, true) && Quiet(s0) && 0 in s0.ops && 1 in s0.ops
    requires s0.ops[0] < q && s0.ops[1] < q && x < y < |s0.current| && x !in s0.lh && y !in s0.lh
    requires s == s0.(cache := s0.cache[x := vx][y := vy], held := s0.held[x := Hold(0, true)][y := Hold(1, true)],
                      passed := s0.passed[0 := x][1 := y])
    requires s' == Raced(s0, x, vx, y, vy)
    ensures Path(L, a, s', q, true) && Good(s', q, true)
  {
    var s1 := s.(lh := s.lh + [x], ops := s.ops[0 := s.ops[0] + 1], passed := s0.passed[1 := y],
                 held := s0.held[y := Hold(1, true)], current := s.current[x := vx]);
    GoneFirst(s0.held, x, Hold(0, true), y, Hold(1, true));
    GoneFirst(s0.passed, 0, x, 1, y);
    TakeSlot(L, a, s, q, true, 0, x, s1);
    Gone(s0.held, y, Hold(1, true));
    Gone(s0.passed, 1, y);
    TakeSlot(L, a, s1, q, true, 1, y, s');
  }

  /** Both take a slot where the test let each through for the last one. */
  lemma BothLog(L: Layout, a: State, s: State, q: nat, x: nat, vx: Block, y: nat, vy: Block, s': State)
    requires Path(L, a, s, q, true) && Good(s, q, true) && Quiet(s) && 0 in s.ops && 1 in s.ops && |s.cache| + 1 < NBUF
    requires s.ops[0] < q && s.ops[1] < q && x < y < |s.disk| == |s.current| && L.Home(x) && L.Home(y)
    requires x !in s.lh && y !in s.lh && !TooBig(|s.lh|, L.size) && s' == Raced(s, x, vx, y, vy)
    ensures Path(L, a, s', q, true) && Good(s', q, true)
  {
    var s1 := s.(cache := s.cache[x := vx][y := vy], held := s.held[x := Hold(0, true)][y := Hold(1, true)],
                 passed := s.passed[0 := x][1 := y]);
    BothPass(L, a, s, q, x, vx, y, vy, s1);
    BothTake(L, a, s, s1, q, x, vx, y, vy, s');
  }

  lemma RacedStage(L: Layout, d: Disk, lo: nat, n: nat, s: State, v: Block, s': State)
    requires Stage(L, d, lo, n, s.ops, s) && 0 in s.ops && 1 in s.ops && lo + n + 2 <= |d|
    requires s' == Raced(s, lo + n, d[lo + n], lo + n + 1, v)
    ensures Stage(L, d, lo, n + 2, s'.ops, s')
  {
    assert |s'.cache| <= n + 2 by { assert s'.cache.Keys == s.cache.Keys + {lo + n} + {lo + n + 1}; }
  }

  lemma Race(L: Layout, a: State, s: State, q: nat, d: Disk, lo: nat, n: nat, v: Block) returns (s': State)
    requires Path(L, a, s, q, true) && Good(s, q, true) && Stage(L, d, lo, n, s.ops, s)
    requires s.ops.Keys == {0, 1} && s.ops[0] < q && s.ops[1] < q
    requires n + 2 == L.size <= NBUF && Source(L, d, lo, n + 2)
    ensures Path(L, a, s', q, true) && Good(s', q, true) && s'.ops.Keys == {0, 1}
    ensures Stage(L, d, lo, n + 2, s'.ops, s') && s'.points == s.points && s'.saved == s.saved
    ensures lo + n + 1 in s'.cache && s'.cache[lo + n + 1] == v
  {
    s' := Raced(s, lo + n, d[lo + n], lo + n + 1, v);
    BothLog(L, a, s, q, lo + n, d[lo + n], lo + n + 1, v, s');
    RacedStage(L, d, lo, n, s, v, s');
  }

  /** Both operations end, and the commit begins. */
  lemma EndBoth(L: Layout, a: State, s: State, q: nat, d: Disk, lo: nat, n: nat) returns (s': State)
    requires Path(L, a, s, q, true) && Good(s, q, true) && Stage(L, d, lo, n, s.ops, s) && s.ops.Keys == {0, 1} && n > 0
    ensures Path(L, a, s', q, true) && Good(s', q, true)
    ensures s' == s.(ops := map[], mode := Committing(d, 0), points := s.points + [s.current])
  {
    var s1 := s.(ops := s.ops - {1});
    assert 0 in s1.ops;
    Go(L, a, s, q, true, End(1), s1);
    assert s1.ops - {0} == map[];
    s' := DoEnd(s1, 0);
    Go(L, a, s1, q, true, End(0), s');
  }

  /** A commit's disk, k slots into write_log, when the last slot lies past the log area. */
  ghost predicate Spilling(L: Layout, s: State, k: nat, s': State) {
    && s.mode.Committing? && s' == s.(disk := s'.disk, cache := s'.cache, mode := Committing(s.mode.base, k))
    && |s'.disk| == |s.disk| && L.start < |s.disk| && s'.disk[L.start] == s.disk[L.start]
    && (forall b | b in s.lh :: b in s.cache) && (k < |s.lh| ==> s'.cache == s.cache)
    && (0 < k == |s.lh| ==> L.Slot(k - 1) < |s.disk| && s'.disk[L.Slot(k - 1)] == s.cache[s.lh[k - 1]])
  }

  lemma SpillNext(L: Layout, s: State, k: nat, s1: State)
    requires Spilling(L, s, k, s1) && k < |s.lh| == L.size < NBUF && |s.cache| <= L.size && L.Fits(s.disk)
    requires s.held == map[]
    requires forall j | 0 <= j < |s.lh| :: L.Slot(j) < s.lh[j] < |s.disk| && L.Slot(|s.lh| - 1) < s.lh[j]
    ensures CanWrite(L, s1) && Spilling(L, s, k + 1, DoCommitWrite(L, s1))
  {
    assert s1.lh[k] in s.lh && L.Slot(k) !in s.lh;
    assert Readable(L, s1, k);
  }

  lemma {:induction false} WriteSlots(L: Layout, a: State, s: State, q: nat, k: nat) returns (s': State)
    requires Path(L, a, s, q, true) && Good(s, q, true) && Spilling(L, s, 0, s)
    requires k <= |s.lh| == L.size < NBUF && |s.cache| <= L.size && L.Fits(s.disk) && s.held == map[]
    requires forall j | 0 <= j < |s.lh| :: L.Slot(j) < s.lh[j] < |s.disk| && L.Slot(|s.lh| - 1) < s.lh[j]
    ensures Path(L, a, s', q, true) && Good(s', q, true) && Spilling(L, s, k, s')
    decreases k
  {
    if k == 0 {
      s' := s;
    } else {
      var s1 := WriteSlots(L, a, s, q, k - 1);
      SpillNext(L, s, k - 1, s1);
      s' := DoCommitWrite(L, s1);
      Go(L, a, s1, q, true, CommitWrite, s');
    }
  }

  /** A block of the right size that is not b. */
  function Other(b: Block): (r: Block)
    ensures r != b && |r.words| == WORDS
  {
    var z, o := Block(seq(WORDS, _ => 0)), Block(seq(WORDS, _ => 1));
    assert z.words[0] != o.words[0];
    if b == z then o else z
  }

  /** The clobbered block is recovered as it is, and at no point was so. */
  lemma Clobbered(L: Layout, d0: Disk, d: Disk, current: Disk, h: nat, s: State)
    requires Clean(d0, L) && Clean(d, L) && |d0| == |d| == |current| == |s.disk| && h < |d| && L.Home(h)
    requires d[h] == d0[h] == current[h] && s.disk[L.start] == d[L.start] && s.disk[h] != d[h]
    requires s.points == [Recover(d0, L), current]
    ensures DiskOk(s.disk, L) && forall j | 0 <= j < |s.points| :: !SameHome(s.points[j], Recover(s.disk, L), L)
  {
    RecoverClean(d0, L);
    RecoverClean(s.disk, L);
    assert Recover(s.disk, L)[h] == s.disk[h] && Recover(d0, L)[h] == d0[h];
    forall j | 0 <= j < |s.points|
      ensures !SameHome(s.points[j], Recover(s.disk, L), L)
    {
      assert s.points[j][h] == d[h];
    }
  }

  /** A log with one slot more than its area has, about to be committed. */
  ghost predicate Full(L: Layout, d: Disk, v: Block, s: State) {
    && s.mode == Committing(d, 0) && s.disk == d && L.Fits(d) && s.held == map[] && s.missing == multiset{}
    && |s.current| == |d|
    && |s.lh| == L.size && |s.cache| <= L.size && L.start + 2 * L.size < |d|
    && (forall j | 0 <= j < |s.lh| :: s.lh[j] == L.start + L.size + 1 + j && s.lh[j] in s.cache)
    && s.cache[s.lh[L.size - 1]] == v && s.current[L.start + L.size] == d[L.start + L.size]
  }

  /** From a clean disk, two operations fill the log, overtake each other after the test, and end. */
  lemma Overfill(L: Layout, a: State, q: nat, v: Block) returns (d: Disk, s: State)
    requires Init(L, a) && Clean(a.disk, L) && L.start + 2 * L.size < |a.disk|
    requires 1 <= q <= MAXOPBLOCKS && 2 <= L.size <= NBUF && !Roomy(L, q)
    ensures Path(L, a, s, q, true) && Good(s, q, true) && Full(L, d, v, s) && Clean(d, L) && |d| == |a.disk|
    ensures (forall b | 0 <= b < |d| && b != L.start :: d[b] == a.disk[b])
    ensures s.points == a.points + [s.current] && s.saved == 0
  {
    var lo := L.start + L.size + 1;
    var s1 := BootClean(L, a, q, lo);
    d := s1.disk;
    var s2 := FillLog(L, a, s1, q, d, lo);
    var s3 := Race(L, a, s2, q, d, lo, L.size - 2, v);
    s := EndBoth(L, a, s3, q, d, lo, L.size);
  }

  /** When the log is not roomy and buffers are not short, a run from any clean disk ends, before any
      header write, with a home block overwritten: a crash then recovers no state the file system was
      ever in. */
  lemma Overflow(L: Layout, a: State, q: nat) returns (s: State)
    requires Init(L, a) && Clean(a.disk, L) && L.start + 2 * L.size < |a.disk|
    requires 1 <= q <= MAXOPBLOCKS && 2 <= L.size < NBUF && !Roomy(L, q)
    ensures Path(L, a, s, q, true) && s.saved < |s.points| && DiskOk(s.disk, L)
    ensures forall j | 0 <= j < |s.points| :: !SameHome(s.points[j], Recover(s.disk, L), L)
  {
    var h := L.start + L.size;
    var d, s1 := Overfill(L, a, q, Other(a.disk[h]));
    s := WriteSlots(L, a, s1, q, L.size);
    Clobbered(L, a.disk, d, s1.current, h, s);
  }

  /** A run as long as a path is. */
  lemma PathRuns(L: Layout, a: State, s: State, q: nat) returns (ss: seq<State>, sts: seq<Step>)
    requires Init(L, a) && Path(L, a, s, q, true)
    ensures Run(L, ss, sts) && ss[0] == a && ss[|sts|] == s && Frugal(q, ss, |sts|) && Balanced(ss, sts, |sts|)
  {
    ss, sts :| Leads(L, a, s, q, true, ss, sts);
    assert forall i | 0 <= i < |ss| :: Good(ss[i], q, true);
  }

  /** A machine about to boot from disk d. */
  ghost function Off(L: Layout, d: Disk): (a: State)
    requires DiskOk(d, L)
    ensures Init(L, a) && a.disk == d
  {
    State(d, map[], map[], [], map[], map[], multiset{}, Down, d, [Recover(d, L)], 0)
  }

  /** Every run from d, with at most q slots an operation and no process going on after the recovery
      of a non-empty log, ends in a state from which a crash recovers the saved point. */
  ghost predicate AlwaysConsistent(L: Layout, d: Disk, q: nat) {
    forall ss: seq<State>, sts: seq<Step> | Run(L, ss, sts) && ss[0].disk == d && Frugal(q, ss, |sts|)
      && Balanced(ss, sts, |sts|) ::
      Consistent(L, ss[|sts|])
  }

  lemma SizeDecides(L: Layout, d: Disk, q: nat)
    requires Clean(d, L) && L.start + 2 * L.size < |d| && 1 <= q <= MAXOPBLOCKS && 2 <= L.size
    ensures AlwaysConsistent(L, d, q) <==> Enough(L, q)
  {
    if Enough(L, q) {
      forall ss: seq<State>, sts: seq<Step> | Run(L, ss, sts) && ss[0].disk == d && Frugal(q, ss, |sts|)
        && Balanced(ss, sts, |sts|)
        ensures Consistent(L, ss[|sts|])
      {
        CrashConsistent(L, q, ss, sts, |sts|);
      }
    } else {
      RecoverClean(d, L);
      var s := Overflow(L, Off(L, d), q);
      var ss, sts := PathRuns(L, Off(L, d), s, q);
      assert !Consistent(L, ss[|sts|]);
    }
  }

  /** Crash consistency holds exactly if the log has room for the slots that can be taken after
      log_write's test, or has as many blocks as there are buffers. For operations of up to MAXOPBLOCKS
      slots that is NBUF blocks, which mkfs's log area just has; one block fewer, and they can take one
      slot too many. */
  lemma LogSizeDecides(L: Layout, d: Disk, q: nat)
    requires Clean(d, L) && L.start + 2 * L.size < |d| && 1 <= q <= MAXOPBLOCKS && 2 <= L.size
    ensures AlwaysConsistent(L, d, q) <==> Roomy(L, q) || NBUF <= L.size
    ensures AlwaysConsistent(L, d, MAXOPBLOCKS) <==> NBUF <= L.size
  {
    SizeDecides(L, d, q);
    SizeDecides(L, d, MAXOPBLOCKS);
  }

  /** The blocks of a full list are all that is cached. */
  lemma FullCache(L: Layout, d: Disk, v: Block, s: State)
    requires Full(L, d, v, s)
    ensures Distinct(s.lh) && s.cache.Keys == Elems(s.lh) && |s.cache| == |s.lh| && L.Slot(0) !in s.cache
  {
    DistinctSize(s.lh);
    SubsetSize(Elems(s.lh), s.cache.Keys);
  }

  lemma AllPinned(s: State, base: Disk, b: nat)
    requires s.mode == Committing(base, 0) && s.held == map[] && s.missing == multiset{} && b in s.lh
    ensures Refs(s, b) == 1
  {
    assert s.lh[0..] == s.lh;
  }

  lemma FullStuck(L: Layout, d: Disk, v: Block, s: State)
    requires Full(L, d, v, s) && L.size == NBUF
    ensures |s.cache| == NBUF && L.Slot(0) !in s.cache && !CanWrite(L, s)
    ensures forall b | b in s.cache :: Refs(s, b) != 0
  {
    FullCache(L, d, v, s);
    forall b | b in s.cache
      ensures Refs(s, b) != 0
    {
      assert b in Elems(s.lh);
      AllPinned(s, d, b);
    }
    AllTaken(L, s);
  }

  /** With mkfs's nlog == LOGSIZE == NBUF, operations inside their reservations can take the last slot
      twice over. The commit that follows finds every buffer referenced, and panics at its first bread. */
  lemma StuckCommit(L: Layout, d: Disk) returns (ss: seq<State>, sts: seq<Step>)
    requires Clean(d, L) && L.size == LOGSIZE && L.start + 2 * L.size < |d|
    ensures Run(L, ss, sts) && ss[0].disk == d && Frugal(MAXOPBLOCKS, ss, |sts|) && Balanced(ss, sts, |sts|)
    ensures var s := ss[|sts|];
            && s.mode.Committing? && |s.lh| == L.size && L.Slot(0) !in s.cache && !CanWrite(L, s)
            && |s.cache| == NBUF && forall b | b in s.cache :: Refs(s, b) != 0
  {
    RecoverClean(d, L);
    var a, v := Off(L, d), d[0];
    var d', s := Overfill(L, a, MAXOPBLOCKS, v);
    ss, sts := PathRuns(L, a, s, MAXOPBLOCKS);
    FullStuck(L, d', v, s);
  }

  lemma Dirtied(L: Layout, a: State, s: State, q: nat, p: Pid, b: nat) returns (s': State)
    requires Path(L, a, s, q, true) && Good(s, q, true) && Quiet(s) && p in s.ops && b < |s.disk| && L.Home(b)
    requires Spare(s, {b})
    ensures Path(L, a, s', q, true) && Holds(s', p, b) && Dirty(s', b) && s'.ops == s.ops && s'.lh == s.lh
  {
    var s1 := s.(cache := s.cache[b := Read(s, b)], held := s.held[b := Hold(p, false)]);
    ReadOne(L, a, s, q, true, p, b, s1);
    s' := s1.(held := s1.held[b := Hold(p, true)]);
    assert s1.cache[b := s1.cache[b]] == s1.cache;
    ChangeOne(L, a, s1, q, true, p, b, s1.cache[b], s');
  }

  /** With mkfs's nlog == LOGSIZE, operations inside their reservations can still meet the panic: a
      run in which log_write is called for a new block by an operation that has a slot to spare. */
  lemma OneSlotNotEnough(L: Layout, d: Disk) returns (ss: seq<State>, sts: seq<Step>, b: nat)
    requires Clean(d, L) && L.size == LOGSIZE && L.start + 2 * L.size < |d|
    ensures Run(L, ss, sts) && ss[0].disk == d && Frugal(MAXOPBLOCKS, ss, |sts|)
    ensures var s := ss[|sts|];
            && 2 in s.ops && s.ops[2] + 1 <= MAXOPBLOCKS && Holds(s, 2, b) && Dirty(s, b) && b !in s.lh
            && TooBig(|s.lh|, L.size)
  {
    RecoverClean(d, L);
    var a, lo, q := Off(L, d), L.start + L.size + 1, MAXOPBLOCKS;
    var s := BootClean(L, a, q, lo);
    var d' := s.disk;
    s := BeginOne(L, a, s, q, d', lo, 0, 0);
    s := BeginOne(L, a, s, q, d', lo, 0, 1);
    s := BeginOne(L, a, s, q, d', lo, 0, 2);
    s := LogMany(L, a, s, q, d', lo, 0, 0, 10);
    s := LogMany(L, a, s, q, d', lo, 10, 1, 10);
    s := LogMany(L, a, s, q, d', lo, 20, 2, 9);
    b := lo + 29;
    SpareOne(s, b);
    s := Dirtied(L, a, s, q, 2, b);
    ss, sts := PathRuns(L, a, s, q);
  }

  // ---- A recovery upsets the reference counts

  /** Just recovered, with a bunpin of b that no bpin preceded. */
  ghost predicate Recovered(L: Layout, s: State, b: nat) {
    && Quiet(s) && s.ops == map[] && s.lh == [] && s.missing[b] == 1 && b in s.cache && b < |s.disk| && L.Home(b)
    && 2 <= L.size && |s.cache| < NBUF && Clean(s.disk, L) && s.current == s.disk && s.cache[b] == s.disk[b]
    && s.saved + 1 == |s.points|
    && forall c | c in s.cache :: L.Home(c)
  }

  lemma EvictPinned(L: Layout, a: State, s: State, b: nat, q: nat, s': State)
    requires Path(L, a, s, q, false) && Good(s, q, false) && Quiet(s) && s.lh == [b] && s.missing[b] == 1
    requires b in s.cache
    requires s' == s.(cache := s.cache - {b})
    ensures Path(L, a, s', q, false) && Good(s', q, false)
  {
    assert b in Pinned(s) && Refs(s, b) == 0;
    Go(L, a, s, q, false, Evict(b), s');
  }

  /** b is logged and let go; its pin and the missing one cancel out, and its buffer is recycled. */
  lemma PinnedRecycled(L: Layout, s: State, b: nat, v: Block, q: nat, s': State)
    requires Recovered(L, s, b) && 1 <= q
    requires s' == s.(ops := map[0 := 1], lh := [b], current := s.current[b := v], cache := s.cache - {b})
    ensures Path(L, s, s', q, false) && Good(s', q, false)
  {
    Start(L, s, q, false);
    var s1 := s.(ops := map[0 := 0]);
    Go(L, s, s, q, false, Begin(0), s1);
    var s2 := Logged(s1, 0, b, v);
    LogOne(L, s, s1, q, false, 0, b, v, s2);
    assert s2.cache - {b} == s.cache - {b} && s2.ops == map[0 := 1];
    EvictPinned(L, s, s2, b, q, s');
  }

  /** A commit about to log and install one block, of which the cache has lost its copy. */
  ghost predicate Losing(L: Layout, s: State, b: nat) {
    && s.held == map[] && s.passed == map[] && s.lh == [b] && |s.points| > 0 && |s.cache| + 2 <= NBUF
    && b < |s.disk| && L.Home(b) && b !in s.cache && 2 <= L.size && L.Fits(s.disk)
    && forall c | c in s.cache :: L.Home(c)
  }

  /** One disk write of the commit. */
  lemma CommitOne(L: Layout, a: State, s: State, q: nat, s': State)
    requires Path(L, a, s, q, false) && Good(s, q, false) && CanWrite(L, s) && s' == DoCommitWrite(L, s)
    ensures Path(L, a, s', q, false) && Good(s', q, false)
  {
    Go(L, a, s, q, false, CommitWrite, s');
  }

  lemma LosingReads(L: Layout, s: State, b: nat)
    requires Losing(L, s, b)
    ensures !L.Home(L.start) && !L.Home(L.Slot(0)) && Readable(L, s, 0) && Spare(s, {L.start}) && Spare(s, {b})
  {
  }

  lemma SlotIO(L: Layout, s: State, b: nat)
    requires Losing(L, s, b) && s.mode == Committing(s.disk, 0)
    ensures !L.Home(L.Slot(0)) && CanWrite(L, s) && CommitIO(L, s) == Write(L.Slot(0), s.disk[b])
  {
    LosingReads(L, s, b);
  }

  /** write_log: what the slot gets is the old contents, from disk. */
  lemma SlotOld(L: Layout, a: State, s: State, b: nat, q: nat, s': State)
    requires Path(L, a, s, q, false) && Good(s, q, false) && Losing(L, s, b) && s.mode == Committing(s.disk, 0)
    requires s' == s.(disk := s.disk[L.Slot(0) := s.disk[b]], mode := Committing(s.disk, 1))
    ensures Path(L, a, s', q, false) && Good(s', q, false)
  {
    SlotIO(L, s, b);
    assert s' == DoCommitWrite(L, s);
    CommitOne(L, a, s, q, s');
  }

  lemma HeaderIO(L: Layout, s: State, b: nat, base: Disk)
    requires Losing(L, s, b) && s.mode == Committing(base, 1)
    ensures CanWrite(L, s) && CommitIO(L, s) == Write(L.start, PutHeader(s.disk[L.start], [b]))
  {
    LosingReads(L, s, b);
  }

  /** And the header write. */
  lemma HeaderOld(L: Layout, a: State, s: State, b: nat, q: nat, base: Disk, s': State)
    requires Path(L, a, s, q, false) && Good(s, q, false) && Losing(L, s, b) && s.mode == Committing(base, 1)
    requires s' == s.(disk := s.disk[L.start := PutHeader(s.disk[L.start], [b])], mode := Committing(base, 2),
                      saved := |s.points| - 1)
    ensures Path(L, a, s', q, false) && Good(s', q, false)
  {
    HeaderIO(L, s, b, base);
    assert s' == DoCommitWrite(L, s);
    CommitOne(L, a, s, q, s');
  }

  lemma LogsOld(L: Layout, a: State, s: State, b: nat, q: nat, s': State)
    requires Path(L, a, s, q, false) && Good(s, q, false) && Losing(L, s, b) && s.mode == Committing(s.disk, 0)
    requires s' == s.(disk := s.disk[L.Slot(0) := s.disk[b]][L.start := PutHeader(s.disk[L.start], [b])],
                      mode := Committing(s.disk, 2), saved := |s.points| - 1)
    ensures Path(L, a, s', q, false) && Good(s', q, false)
  {
    var s1 := s.(disk := s.disk[L.Slot(0) := s.disk[b]], mode := Committing(s.disk, 1));
    SlotOld(L, a, s, b, q, s1);
    HeaderOld(L, a, s1, b, q, s.disk, s');
  }

  lemma BlockIO(L: Layout, s: State, b: nat, base: Disk)
    requires Losing(L, s, b) && s.mode == Committing(base, 2)
    ensures CanWrite(L, s) && CommitIO(L, s) == Write(b, s.disk[L.Slot(0)])
  {
    LosingReads(L, s, b);
  }

  /** install_trans: the old contents go back to the block. */
  lemma BlockOld(L: Layout, a: State, s: State, b: nat, q: nat, base: Disk, s': State)
    requires Path(L, a, s, q, false) && Good(s, q, false) && Losing(L, s, b) && s.mode == Committing(base, 2)
    requires s' == s.(disk := s.disk[b := s.disk[L.Slot(0)]], cache := s.cache[b := s.disk[L.Slot(0)]],
                      mode := Committing(base, 3))
    ensures Path(L, a, s', q, false) && Good(s', q, false)
  {
    BlockIO(L, s, b, base);
    assert s' == DoCommitWrite(L, s);
    CommitOne(L, a, s, q, s');
  }

  /** The header is cleared, and the commit ends. */
  lemma DoneOld(L: Layout, a: State, s: State, b: nat, q: nat, base: Disk, s': State)
    requires Path(L, a, s, q, false) && Good(s, q, false) && s.mode == Committing(base, 3) && s.lh == [b]
    requires L.Fits(s.disk) && Spare(s, {L.start})
    requires s' == s.(disk := s.disk[L.start := PutHeader(s.disk[L.start], [])], mode := Running, lh := [])
    ensures Path(L, a, s', q, false)
  {
    var s1 := s.(disk := s.disk[L.start := PutHeader(s.disk[L.start], [])], mode := Committing(base, 4));
    assert s1 == DoCommitWrite(L, s);
    CommitOne(L, a, s, q, s1);
    Go(L, a, s1, q, false, CommitDone, s');
  }

  lemma InstallsOld(L: Layout, a: State, s: State, b: nat, q: nat, s': State)
    requires Path(L, a, s, q, false) && Good(s, q, false) && Losing(L, s, b) && s.mode.Committing? && s.mode.k == 2
    requires s' == s.(disk := s.disk[b := s.disk[L.Slot(0)]][L.start := PutHeader(s.disk[L.start], [])],
                      cache := s.cache[b := s.disk[L.Slot(0)]], mode := Running, lh := [])
    ensures Path(L, a, s', q, false)
  {
    assert !L.Home(L.start);
    var s1 := s.(disk := s.disk[b := s.disk[L.Slot(0)]], cache := s.cache[b := s.disk[L.Slot(0)]],
                 mode := Committing(s.mode.base, 3));
    BlockOld(L, a, s, b, q, s.mode.base, s1);
    assert |s1.cache| < NBUF by { assert s1.cache.Keys == s.cache.Keys + {b}; }
    SpareOne(s1, L.start);
    DoneOld(L, a, s1, b, q, s.mode.base, s');
  }

  /** Once a recovery has found a non-empty log, an operation on a recovered block can end and be
      committed without its change: reads and crashes give the old contents ever after. */
  lemma ChangeLost(L: Layout, s: State, b: nat, q: nat) returns (s': State)
    requires Recovered(L, s, b) && 1 <= q
    ensures Path(L, s, s', q, false) && s'.mode.Running? && s'.ops == map[] && b < |s'.disk| == |s'.current|
    ensures !Dirty(s', b) && Read(s', b) != s'.current[b] && !Consistent(L, s')
  {
    var old0, v := s.disk[b], Other(s.disk[b]);
    var s1 := s.(ops := map[0 := 1], lh := [b], current := s.current[b := v], cache := s.cache - {b});
    PinnedRecycled(L, s, b, v, q, s1);
    var s2 := s1.(ops := map[], mode := Committing(s.disk, 0), points := s.points + [s1.current]);
    assert s1.ops - {0} == map[];
    Go(L, s, s1, q, false, End(0), s2);
    var s3 := s2.(disk := s.disk[L.Slot(0) := old0][L.start := PutHeader(s.disk[L.start], [b])],
                  mode := Committing(s.disk, 2), saved := |s.points|);
    LogsOld(L, s, s2, b, q, s3);
    assert s3.disk[L.Slot(0)] == old0;
    s' := s3.(disk := s3.disk[b := old0][L.start := PutHeader(s3.disk[L.start], [])],
              cache := s3.cache[b := old0], mode := Running, lh := []);
    InstallsOld(L, s, s3, b, q, s');
    RecoverClean(s'.disk, L);
    assert Recover(s'.disk, L)[b] == old0 && s'.points[s'.saved][b] == v;
  }

  lemma EvictHeld(L: Layout, s: State, b: nat, q: nat, s': State)
    requires Good(s, q, false) && s.mode.Running? && b in s.held && s.lh == [] && s.missing[b] == 1 && b in s.cache
    requires s' == s.(cache := s.cache - {b})
    ensures Refs(s, b) == 0 && Path(L, s, s', q, false) && Good(s', q, false)
  {
    assert Refs(s, b) == 0;
    Start(L, s, q, false);
    Go(L, s, s, q, false, Evict(b), s');
  }

  /** The holder of a recovered block can lose its buffer: the count is zero while the lock is held, and
      once the buffer is recycled another process takes the same block. */
  lemma HolderRobbed(L: Layout, s: State, b: nat, q: nat) returns (s1: State, s2: State)
    requires Recovered(L, s, b)
    ensures Path(L, s, s1, q, false) && Path(L, s1, s2, q, false)
    ensures Holds(s1, 0, b) && Refs(s1, b) == 0 && Holds(s2, 1, b)
  {
    Start(L, s, q, false);
    s1 := s.(held := map[b := Hold(0, false)]);
    assert s.cache[b := s.cache[b]] == s.cache;
    assert Spare(s, {b});
    ReadOne(L, s, s, q, false, 0, b, s1);
    var s' := s1.(cache := s1.cache - {b});
    EvictHeld(L, s1, b, q, s');
    s2 := s'.(cache := s'.cache[b := s'.disk[b]], held := s'.held[b := Hold(1, false)]);
    SpareOne(s', b);
    ReadOne(L, s1, s', q, false, 1, b, s2);
  }

  // ---- When a recovery is safe to go on from

  /** A longer run, in which no crash follows. */
  ghost predicate GoesOn(L: Layout, ss: seq<State>, sts: seq<Step>, ss': seq<State>, sts': seq<Step>) {
    Run(L, ss', sts') && ss <= ss' && sts <= sts' && forall j | |sts| <= j < |sts'| :: !sts'[j].Crash?
  }

  /** Whatever processes do until the next crash, with at most q slots an operation, that crash will
      recover the saved point. */
  ghost predicate SafeToGoOn(L: Layout, ss: seq<State>, sts: seq<Step>, q: nat) {
    forall ss', sts' | GoesOn(L, ss, sts, ss', sts') && Frugal(q, ss', |sts'|) :: Consistent(L, ss'[|sts'|])
  }

  lemma JustRecovered(L: Layout, q: nat, s: State, s': State, b: nat)
    requires Inv(L, q, s) && Buffered(L, s) && Next(L, s, RecoverDone, s') && b in s'.missing && s'.missing[b] == 1
    ensures Recovered(L, s', b)
  {
    KeepRecoverDone(L, q, s, s');
    assert b in s.lh;
  }

  lemma EvenStep(L: Layout, s: State, st: Step, s': State)
    requires Stepped(L, s, st, s') && !st.Crash? && Live(s) && s.missing == multiset{}
    ensures Live(s') && s'.missing == multiset{}
  {
    assert Open(0);
  }

  lemma {:induction false} StaysEven(L: Layout, ss: seq<State>, sts: seq<Step>, ss': seq<State>, sts': seq<Step>,
                                     i: nat)
    requires GoesOn(L, ss, sts, ss', sts') && |ss| == |sts| + 1 && |sts| <= i < |ss'|
    requires ss[|sts|].mode.Running? && ss[|sts|].missing == multiset{}
    ensures Live(ss'[i]) && ss'[i].missing == multiset{}
    decreases i
  {
    if i > |sts| {
      StaysEven(L, ss, sts, ss', sts', i - 1);
      EvenStep(L, ss'[i - 1], sts'[i - 1], ss'[i]);
    }
  }

  /** Steps taken one after the other, those from the n-th on without a crash. */
  ghost predicate Chain(L: Layout, ss: seq<State>, sts: seq<Step>, n: nat) {
    && |ss| == |sts| + 1
    && forall i | 0 <= i < |sts| :: Stepped(L, ss[i], sts[i], ss[i + 1]) && (i >= n ==> !sts[i].Crash?)
  }

  lemma JoinChains(L: Layout, ss: seq<State>, sts: seq<Step>, xs: seq<State>, ys: seq<Step>)
    requires Chain(L, ss, sts, |sts|) && Chain(L, xs, ys, 0) && xs[0] == ss[|sts|]
    ensures Chain(L, ss + xs[1..], sts + ys, |sts|)
  {
    var ss', sts' := ss + xs[1..], sts + ys;
    forall i | 0 <= i < |sts'|
      ensures Stepped(L, ss'[i], sts'[i], ss'[i + 1]) && (i >= |sts| ==> !sts'[i].Crash?)
    {
      var j := i - |sts|;
      if j >= 0 {
        assert ss'[i] == xs[j] && sts'[i] == ys[j] && ss'[i + 1] == xs[j + 1];
      } else {
        assert ss'[i] == ss[i] && sts'[i] == sts[i] && ss'[i + 1] == ss[i + 1];
      }
    }
  }

  lemma JoinRuns(L: Layout, ss: seq<State>, sts: seq<Step>, s: State, q: nat) returns (ss': seq<State>, sts': seq<Step>)
    requires Run(L, ss, sts) && Frugal(q, ss, |sts|) && Path(L, ss[|sts|], s, q, false)
    ensures GoesOn(L, ss, sts, ss', sts') && ss'[|sts'|] == s && Frugal(q, ss', |sts'|)
  {
    var xs, ys :| Leads(L, ss[|sts|], s, q, false, xs, ys);
    ss', sts' := ss + xs[1..], sts + ys;
    JoinChains(L, ss, sts, xs, ys);
    forall i | 0 <= i < |ss'|
      ensures Within(q, ss'[i])
    {
      if i >= |ss| {
        assert Good(xs[i - |sts|], q, false);
      } else {
        assert Within(q, ss[i]);
      }
    }
  }

  lemma GoesOnBalanced(L: Layout, ss: seq<State>, sts: seq<Step>, ss': seq<State>, sts': seq<Step>)
    requires GoesOn(L, ss, sts, ss', sts') && |ss| == |sts| + 1 && Balanced(ss, sts, |sts|)
    requires ss[|sts|].mode.Running? && ss[|sts|].missing == multiset{}
    ensures Balanced(ss', sts', |sts'|)
  {
    forall j | 0 <= j < |sts'| && ByProcess(sts'[j])
      ensures ss'[j].missing == multiset{}
    {
      if j >= |sts| {
        StaysEven(L, ss, sts, ss', sts', j);
      } else {
        assert ss'[j] == ss[j] && sts'[j] == sts[j];
      }
    }
  }

  lemma CountOnce(s: seq<nat>, k: nat)
    requires Distinct(s) && k < |s|
    ensures multiset(s)[s[k]] == 1
  {
    var a, b := s[..k], s[k + 1..];
    assert s == a + [s[k]] + b;
    assert s[k] !in a && s[k] !in b;
    assert multiset(s) == multiset(a) + multiset([s[k]]) + multiset(b);
  }

  /** Going on after a recovery is safe exactly if the log it found was empty. */
  lemma RecoveryDecides(L: Layout, q: nat, ss: seq<State>, sts: seq<Step>)
    requires Run(L, ss, sts) && Enough(L, q) && 1 <= q && Frugal(q, ss, |sts|) && Balanced(ss, sts, |sts|)
    requires |sts| > 0 && sts[|sts| - 1].RecoverDone? && Distinct(ss[|sts| - 1].lh)
    ensures SafeToGoOn(L, ss, sts, q) <==> ss[|sts| - 1].lh == []
  {
    var n, lh := |sts|, ss[|sts| - 1].lh;
    assert Stepped(L, ss[n - 1], sts[n - 1], ss[n]) && Open(0);
    RunInv(L, q, ss, sts, n - 1);
    RunBuffered(L, ss, sts, n - 1);
    if lh == [] {
      forall ss', sts' | GoesOn(L, ss, sts, ss', sts') && Frugal(q, ss', |sts'|)
        ensures Consistent(L, ss'[|sts'|])
      {
        GoesOnBalanced(L, ss, sts, ss', sts');
        CrashConsistent(L, q, ss', sts', |sts'|);
      }
    } else {
      CountOnce(lh, 0);
      JustRecovered(L, q, ss[n - 1], ss[n], lh[0]);
      var s := ChangeLost(L, ss[n], lh[0], q);
      var ss', sts' := JoinRuns(L, ss, sts, s, q);
      assert !Consistent(L, ss'[|sts'|]);
    }
  }
}
