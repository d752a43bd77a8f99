/** The Kernighan and Ritchie allocator: a circular free list in address order.
    Addresses count header-sized units. */
module Umalloc {
  import opened Lists

  const HEADER: nat := 16
  const MINCORE: nat := 4096

  /** A block: the address of its header and its length, header included. */
  datatype Blk = Blk(at: nat, len: nat) {
    function End(): nat { at + len }
    predicate Misses(b: Blk) { End() <= b.at || b.End() <= at }
  }

  // ---- The free list

  /** A header in memory: its length, and a pointer to the next element or, from the last, to e. */
  ghost predicate LinkAt(ptr: map<nat, nat>, size: map<nat, nat>, list: seq<Blk>, e: nat, k: nat)
    requires k < |list|
  {
    var a := list[k].at;
    a in ptr && a in size && size[a] == list[k].len && ptr[a] == if k + 1 < |list| then list[k + 1].at else e
  }

  ghost predicate Segment(ptr: map<nat, nat>, size: map<nat, nat>, list: seq<Blk>, e: nat) {
    forall k: nat {:trigger LinkAt(ptr, size, list, e, k)} | k < |list| :: LinkAt(ptr, size, list, e, k)
  }

  ghost function Front(list: seq<Blk>, e: nat): nat {
    if list == [] then e else list[0].at
  }

  /** The list closes on its first element. */
  ghost predicate InMemory(ptr: map<nat, nat>, size: map<nat, nat>, list: seq<Blk>) {
    Segment(ptr, size, list, Front(list, 0))
  }

  lemma SegmentSplit(ptr: map<nat, nat>, size: map<nat, nat>, A: seq<Blk>, B: seq<Blk>, e: nat)
    requires Segment(ptr, size, A + B, e)
    ensures Segment(ptr, size, A, Front(B, e)) && Segment(ptr, size, B, e)
  {
    forall k: nat | k < |A|
      ensures LinkAt(ptr, size, A, Front(B, e), k)
    {
      assert LinkAt(ptr, size, A + B, e, k);
    }
    forall k: nat | k < |B|
      ensures LinkAt(ptr, size, B, e, k)
    {
      assert LinkAt(ptr, size, A + B, e, |A| + k);
    }
  }

  lemma SegmentJoin(ptr: map<nat, nat>, size: map<nat, nat>, A: seq<Blk>, B: seq<Blk>, e: nat)
    requires Segment(ptr, size, A, Front(B, e)) && Segment(ptr, size, B, e)
    ensures Segment(ptr, size, A + B, e)
  {
    forall k: nat | k < |A + B|
      ensures LinkAt(ptr, size, A + B, e, k)
    {
      if k < |A| {
        assert LinkAt(ptr, size, A, Front(B, e), k);
      } else {
        assert LinkAt(ptr, size, B, e, k - |A|);
      }
    }
  }

  /** Writing one header does not disturb a segment without it. */
  lemma SegmentFrame(ptr: map<nat, nat>, size: map<nat, nat>, list: seq<Blk>, e: nat, a: nat, q: nat, n: nat)
    requires Segment(ptr, size, list, e) && forall k | 0 <= k < |list| :: list[k].at != a
    ensures Segment(ptr[a := q], size[a := n], list, e)
  {
    var ptr', size' := ptr[a := q], size[a := n];
    forall k: nat | k < |list|
      ensures LinkAt(ptr', size', list, e, k)
    {
      assert LinkAt(ptr, size, list, e, k);
    }
  }

  ghost predicate ApartAt(list: seq<Blk>, i: int, j: int)
    requires 0 <= i < |list| && 0 <= j < |list|
  {
    list[i].End() < list[j].at
  }

  /** Address order with a gap after every block: no two free blocks overlap or touch. */
  ghost predicate Apart(list: seq<Blk>) {
    forall i, j {:trigger ApartAt(list, i, j)} | 0 <= i < j < |list| :: ApartAt(list, i, j)
  }

  /** The static header of length 0 comes first, then blocks below the break. */
  ghost predicate Bounded(base: nat, list: seq<Blk>, brk: nat) {
    && 0 < base < brk && list != [] && list[0] == Blk(base, 0)
    && forall k | 1 <= k < |list| :: list[k].len >= 1 && list[k].End() <= brk
  }

  ghost predicate LiveAt(size: map<nat, nat>, live: map<nat, nat>, base: nat, brk: nat, a: nat)
    requires a in live
  {
    a in size && size[a] == live[a] >= 1 && base < a && a + live[a] <= brk
  }

  ghost predicate MissAt(live: map<nat, nat>, a: nat, b: nat)
    requires a in live && b in live
  {
    Blk(a, live[a]).Misses(Blk(b, live[b]))
  }

  /** Live blocks have their length in their header and miss each other. */
  ghost predicate LiveOk(size: map<nat, nat>, live: map<nat, nat>, base: nat, brk: nat) {
    && (forall a {:trigger LiveAt(size, live, base, brk, a)} | a in live :: LiveAt(size, live, base, brk, a))
    && forall a, b {:trigger MissAt(live, a, b)} | a in live && b in live && a != b :: MissAt(live, a, b)
  }

  /** No block of the list overlaps c. */
  ghost predicate MissesAll(c: Blk, list: seq<Blk>) {
    forall k | 0 <= k < |list| :: c.Misses(list[k])
  }

  /** Live blocks miss the free ones. */
  ghost predicate Clear(list: seq<Blk>, live: map<nat, nat>) {
    forall a {:trigger MissesAll(Blk(a, live[a]), list)} | a in live :: MissesAll(Blk(a, live[a]), list)
  }

  /** Memory as the allocator sees it: the two fields of every header. */
  datatype Mem = Mem(ptr: map<nat, nat>, size: map<nat, nat>)

  ghost predicate HeapOk(base: nat, m: Mem, list: seq<Blk>, live: map<nat, nat>, brk: nat) {
    match m
    case Mem(ptr, size) =>
      && InMemory(ptr, size, list) && Apart(list) && Bounded(base, list, brk)
      && LiveOk(size, live, base, brk) && Clear(list, live)
  }

  ghost function Units(list: seq<Blk>): nat {
    if list == [] then 0 else Units(list[..|list| - 1]) + list[|list| - 1].len
  }

  lemma {:induction false} UnitsConcat(a: seq<Blk>, b: seq<Blk>)
    ensures Units(a + b) == Units(a) + Units(b)
  {
    if b == [] {
      assert a + b == a;
    } else {
      var m := |b| - 1;
      UnitsConcat(a, b[..m]);
      assert (a + b)[..|a + b| - 1] == a + b[..m];
    }
  }

  // ---- free

  /** A freed block b goes between the lists A, of lower addresses, and B. */
  ghost predicate Between(A: seq<Blk>, b: Blk, B: seq<Blk>) {
    && A != [] && b.len >= 1 && b.at > A[|A| - 1].at
    && (B != [] ==> b.at < B[0].at)
    && (forall k | 0 <= k < |A| :: b.Misses(A[k])) && (forall k | 0 <= k < |B| :: b.Misses(B[k]))
  }

  predicate Touches(b: Blk, B: seq<Blk>) { B != [] && b.End() == B[0].at }

  /** Join b to the block after it when they touch. */
  ghost function JoinRight(b: Blk, B: seq<Blk>): (r: seq<Blk>) {
    if Touches(b, B) then [Blk(b.at, b.len + B[0].len)] + B[1..] else [b] + B
  }

  /** Join the block before to the first of R when they touch. */
  ghost function JoinLeft(A: seq<Blk>, R: seq<Blk>): (r: seq<Blk>)
    requires A != [] && R != []
  {
    var m := |A| - 1;
    if Touches(A[m], R) then A[..m] + [Blk(A[m].at, A[m].len + R[0].len)] + R[1..] else A + R
  }

  ghost function Freed(A: seq<Blk>, b: Blk, B: seq<Blk>): seq<Blk>
    requires A != []
  {
    JoinLeft(A, JoinRight(b, B))
  }

  /** Every block of A ends before x starts, the last possibly where it starts. */
  ghost predicate Before(A: seq<Blk>, x: nat) {
    && (forall i | 0 <= i < |A| :: A[i].End() <= x)
    && (forall i | 0 <= i < |A| - 1 :: A[i].End() < x)
  }

  lemma ApartParts(A: seq<Blk>, B: seq<Blk>)
    requires Apart(A + B)
    ensures Apart(A) && Apart(B)
    ensures forall i, j | 0 <= i < |A| && 0 <= j < |B| :: A[i].End() < B[j].at
  {
    var L := A + B;
    forall i, j | 0 <= i < j < |A|
      ensures ApartAt(A, i, j)
    {
      assert ApartAt(L, i, j);
    }
    forall i, j | 0 <= i < j < |B|
      ensures ApartAt(B, i, j)
    {
      assert ApartAt(L, |A| + i, |A| + j);
    }
    forall i, j | 0 <= i < |A| && 0 <= j < |B|
      ensures A[i].End() < B[j].at
    {
      assert ApartAt(L, i, |A| + j);
    }
  }

  lemma RightApart(A: seq<Blk>, b: Blk, B: seq<Blk>) returns (x: Blk, T: seq<Blk>)
    requires Apart(A + B) && Between(A, b, B)
    ensures JoinRight(b, B) == [x] + T && x.at == b.at
    ensures Apart(A) && Apart(T) && Before(A, x.at)
    ensures forall j | 0 <= j < |T| :: x.End() < T[j].at
  {
    ApartParts(A, B);
    forall i | 0 <= i < |A|
      ensures A[i].End() <= b.at && (i < |A| - 1 ==> A[i].End() < b.at)
    {
      assert i < |A| - 1 ==> ApartAt(A, i, |A| - 1);
      assert b.Misses(A[i]);
    }
    forall j | 0 <= j < |B|
      ensures b.End() <= B[j].at && (j > 0 ==> B[0].End() < B[j].at)
    {
      assert j > 0 ==> ApartAt(B, 0, j);
      assert b.Misses(B[0]);
    }
    if Touches(b, B) {
      x, T := Blk(b.at, b.len + B[0].len), B[1..];
      assert B == [B[0]] + T;
      ApartParts([B[0]], T);
    } else {
      x, T := b, B;
    }
  }

  lemma SpliceApart(A: seq<Blk>, x: Blk, B: seq<Blk>)
    requires Apart(A) && Apart(B)
    requires forall i | 0 <= i < |A| :: A[i].End() < x.at
    requires forall j | 0 <= j < |B| :: x.End() < B[j].at
    ensures Apart(A + [x] + B)
  {
    var L := A + [x] + B;
    forall i, j | 0 <= i < j < |L|
      ensures ApartAt(L, i, j)
    {
      assert j < |A| ==> ApartAt(A, i, j);
      assert i > |A| ==> ApartAt(B, i - |A| - 1, j - |A| - 1);
    }
  }

  lemma LeftApart(A: seq<Blk>, x: Blk, T: seq<Blk>)
    requires A != [] && Apart(A) && Apart(T) && Before(A, x.at)
    requires forall j | 0 <= j < |T| :: x.End() < T[j].at
    ensures Apart(JoinLeft(A, [x] + T))
  {
    var m := |A| - 1;
    if Touches(A[m], [x] + T) {
      assert A == A[..m] + [A[m]];
      ApartParts(A[..m], [A[m]]);
      SpliceApart(A[..m], Blk(A[m].at, A[m].len + x.len), T);
      assert ([x] + T)[1..] == T;
    } else {
      SpliceApart(A, x, T);
      assert A + [x] + T == A + ([x] + T);
    }
  }

  lemma FreedApart(A: seq<Blk>, b: Blk, B: seq<Blk>)
    requires Apart(A + B) && Between(A, b, B)
    ensures Apart(Freed(A, b, B))
  {
    var x, T := RightApart(A, b, B);
    LeftApart(A, x, T);
  }

  lemma SpliceUnits(A: seq<Blk>, x: Blk, B: seq<Blk>)
    ensures Units(A + [x] + B) == Units(A) + x.len + Units(B)
  {
    UnitsConcat(A + [x], B);
    UnitsConcat(A, [x]);
    assert [x][..0] == [];
  }

  lemma RightUnits(b: Blk, B: seq<Blk>)
    ensures Units(JoinRight(b, B)) == b.len + Units(B)
  {
    SpliceUnits([], b, B);
    assert [] + [b] + B == [b] + B;
    if B != [] {
      SpliceUnits([], B[0], B[1..]);
      assert [] + [B[0]] + B[1..] == B;
      var y := Blk(b.at, b.len + B[0].len);
      SpliceUnits([], y, B[1..]);
      assert [] + [y] + B[1..] == [y] + B[1..];
    }
  }

  lemma LeftUnits(A: seq<Blk>, R: seq<Blk>)
    requires A != [] && R != []
    ensures Units(JoinLeft(A, R)) == Units(A) + Units(R)
  {
    var m := |A| - 1;
    UnitsConcat(A, R);
    SpliceUnits([], R[0], R[1..]);
    assert [] + [R[0]] + R[1..] == R;
    SpliceUnits(A[..m], Blk(A[m].at, A[m].len + R[0].len), R[1..]);
  }

  /** free adds exactly the block's own units to the list. */
  lemma FreedUnits(A: seq<Blk>, b: Blk, B: seq<Blk>)
    requires A != []
    ensures Units(Freed(A, b, B)) == Units(A + B) + b.len
  {
    RightUnits(b, B);
    LeftUnits(A, JoinRight(b, B));
    UnitsConcat(A, B);
  }

  lemma MissesParts(c: Blk, A: seq<Blk>, B: seq<Blk>)
    requires MissesAll(c, A + B)
    ensures MissesAll(c, A) && MissesAll(c, B)
  {
    var L := A + B;
    forall i | 0 <= i < |A|
      ensures c.Misses(A[i])
    {
      assert L[i] == A[i];
    }
    forall j | 0 <= j < |B|
      ensures c.Misses(B[j])
    {
      assert L[|A| + j] == B[j];
    }
  }

  lemma FreedMisses(A: seq<Blk>, b: Blk, B: seq<Blk>, c: Blk)
    requires A != [] && c.len >= 1 && MissesAll(c, A) && MissesAll(c, B) && c.Misses(b)
    ensures MissesAll(c, Freed(A, b, B))
  {
    var R := JoinRight(b, B);
    assert MissesAll(c, R);
  }

  lemma FreedClear(A: seq<Blk>, b: Blk, B: seq<Blk>, live: map<nat, nat>)
    requires A != [] && Clear(A + B, live)
    requires forall a | a in live :: live[a] >= 1 && Blk(a, live[a]).Misses(b)
    ensures Clear(Freed(A, b, B), live)
  {
    forall a | a in live
      ensures MissesAll(Blk(a, live[a]), Freed(A, b, B))
    {
      assert MissesAll(Blk(a, live[a]), A + B);
      MissesParts(Blk(a, live[a]), A, B);
      FreedMisses(A, b, B, Blk(a, live[a]));
    }
  }

  lemma OneSegment(ptr: map<nat, nat>, size: map<nat, nat>, b: Blk, e: nat)
    ensures Segment(ptr[b.at := e], size[b.at := b.len], [b], e)
  {
  }

  /** free's first half: bp's header takes in or points to the block after it. */
  lemma RightInMemory(ptr: map<nat, nat>, size: map<nat, nat>, b: Blk, B: seq<Blk>, e: nat)
    requires Segment(ptr, size, B, e) && forall k | 0 <= k < |B| :: B[k].at != b.at
    ensures Touches(b, B) ==> LinkAt(ptr, size, B, e, 0)
    ensures var next := if Touches(b, B) then ptr[B[0].at] else Front(B, e);
            Segment(ptr[b.at := next], size[b.at := JoinRight(b, B)[0].len], JoinRight(b, B), e)
  {
    if Touches(b, B) {
      assert B == [B[0]] + B[1..];
      SegmentSplit(ptr, size, [B[0]], B[1..], e);
      assert LinkAt(ptr, size, B, e, 0) && LinkAt(ptr, size, [B[0]], Front(B[1..], e), 0);
      var y := Blk(b.at, b.len + B[0].len);
      SegmentFrame(ptr, size, B[1..], e, b.at, Front(B[1..], e), y.len);
      OneSegment(ptr, size, y, Front(B[1..], e));
      SegmentJoin(ptr[y.at := Front(B[1..], e)], size[y.at := y.len], [y], B[1..], e);
    } else {
      SegmentFrame(ptr, size, B, e, b.at, Front(B, e), b.len);
      OneSegment(ptr, size, b, Front(B, e));
      SegmentJoin(ptr[b.at := Front(B, e)], size[b.at := b.len], [b], B, e);
    }
  }

  /** free's second half: the block before takes in or points to the first of R. */
  lemma LeftInMemory(ptr: map<nat, nat>, size: map<nat, nat>, A: seq<Blk>, R: seq<Blk>, e: nat, e': nat)
    requires A != [] && R != [] && Segment(ptr, size, A, e') && Segment(ptr, size, R, e)
    requires forall i, j | 0 <= i < |A| && 0 <= j < |R| :: A[i].at != R[j].at
    requires forall i, j | 0 <= i < j < |A| :: A[i].at != A[j].at
    ensures LinkAt(ptr, size, A, e', |A| - 1) && LinkAt(ptr, size, R, e, 0)
    ensures var x := A[|A| - 1];
            Segment(ptr[x.at := if Touches(x, R) then ptr[R[0].at] else R[0].at],
                    size[x.at := if Touches(x, R) then x.len + R[0].len else x.len], JoinLeft(A, R), e)
  {
    var m := |A| - 1;
    var p := A[m].at;
    assert A == A[..m] + [A[m]];
    SegmentSplit(ptr, size, A[..m], [A[m]], e');
    assert LinkAt(ptr, size, A, e', m) && LinkAt(ptr, size, R, e, 0);
    if A[m].End() == R[0].at {
      var y := Blk(p, A[m].len + R[0].len);
      var T := R[1..];
      assert R == [R[0]] + T;
      SegmentSplit(ptr, size, [R[0]], T, e);
      assert LinkAt(ptr, size, [R[0]], Front(T, e), 0);
      SegmentFrame(ptr, size, A[..m], p, p, Front(T, e), y.len);
      SegmentFrame(ptr, size, T, e, p, Front(T, e), y.len);
      OneSegment(ptr, size, y, Front(T, e));
      SegmentJoin(ptr[p := Front(T, e)], size[p := y.len], A[..m], [y], Front(T, e));
      SegmentJoin(ptr[p := Front(T, e)], size[p := y.len], A[..m] + [y], T, e);
    } else {
      SegmentFrame(ptr, size, A[..m], p, p, R[0].at, A[m].len);
      SegmentFrame(ptr, size, R, e, p, R[0].at, A[m].len);
      OneSegment(ptr, size, A[m], R[0].at);
      SegmentJoin(ptr[p := R[0].at], size[p := A[m].len], A[..m], [A[m]], R[0].at);
      SegmentJoin(ptr[p := R[0].at], size[p := A[m].len], A, R, e);
    }
  }

  lemma FreedBounded(A: seq<Blk>, b: Blk, B: seq<Blk>, base: nat, brk: nat)
    requires Between(A, b, B) && Bounded(base, A + B, brk) && b.End() <= brk
    ensures Bounded(base, Freed(A, b, B), brk)
  {
    var L := A + B;
    assert forall i | 0 <= i < |A| :: L[i] == A[i];
    assert forall j | 0 <= j < |B| :: L[|A| + j] == B[j];
    var R := JoinRight(b, B);
    assert forall j | 0 <= j < |R| :: R[j].len >= 1 && R[j].End() <= brk;
    assert |A| == 1 ==> A[0].End() != R[0].at;
  }

  /** bp's place is after element K. */
  ghost predicate Place(list: seq<Blk>, K: nat, bp: nat) {
    K < |list| && list[K].at < bp && (K + 1 < |list| ==> bp < list[K + 1].at)
  }

  lemma {:induction false} PlaceExists(list: seq<Blk>, bp: nat) returns (K: nat)
    requires list != [] && Apart(list) && list[0].at < bp
    requires forall k | 0 <= k < |list| :: list[k].at != bp
    ensures Place(list, K, bp)
  {
    K := 0;
    while K + 1 < |list| && list[K + 1].at < bp
      invariant K < |list| && list[K].at < bp
    {
      K := K + 1;
    }
  }

  lemma Cut(list: seq<Blk>, k: nat) returns (A: seq<Blk>, B: seq<Blk>)
    requires k <= |list|
    ensures list == A + B && |A| == k
  {
    A, B := list[..k], list[k..];
  }

  /** A live block lies between two parts of the free list. */
  lemma LiveBetween(base: nat, list: seq<Blk>, live: map<nat, nat>, size: map<nat, nat>, brk: nat, bp: nat)
    returns (A: seq<Blk>, B: seq<Blk>)
    requires Bounded(base, list, brk) && Apart(list) && Clear(list, live) && LiveOk(size, live, base, brk) && bp in live
    ensures list == A + B && Between(A, Blk(bp, live[bp]), B)
    ensures forall i | 0 <= i < |A| :: A[i].at < bp
    ensures forall j | 0 <= j < |B| :: bp < B[j].at
  {
    var b := Blk(bp, live[bp]);
    assert LiveAt(size, live, base, brk, bp) && MissesAll(b, list);
    forall k | 0 <= k < |list|
      ensures list[k].at != bp
    {
      assert b.Misses(list[k]);
    }
    var K := PlaceExists(list, bp);
    A, B := Cut(list, K + 1);
    MissesParts(b, A, B);
    forall i | 0 <= i < |A|
      ensures A[i].at < bp
    {
      assert A[i] == list[i] && A[K] == list[K];
      assert i < K ==> ApartAt(list, i, K);
    }
    forall j | 0 <= j < |B|
      ensures bp < B[j].at
    {
      assert B[j] == list[|A| + j] && B[0] == list[|A|];
      assert j > 0 ==> ApartAt(list, |A|, |A| + j);
    }
  }

  // ---- malloc

  lemma LiveSizes(size: map<nat, nat>, live: map<nat, nat>, base: nat, brk: nat)
    requires LiveOk(size, live, base, brk)
    ensures forall a | a in live :: a in size && size[a] == live[a] >= 1 && base < a && a + live[a] <= brk
  {
    forall a | a in live
      ensures a in size && size[a] == live[a] >= 1 && base < a && a + live[a] <= brk
    {
      assert LiveAt(size, live, base, brk, a);
    }
  }

  /** Elements up to bp's place lie below it, the others above. */
  lemma PlaceOrder(list: seq<Blk>, K: nat, bp: nat, i: nat)
    requires Apart(list) && Place(list, K, bp) && i < |list|
    ensures list[i].at < bp <==> i <= K
    ensures list[i].at != bp && (i > 0 ==> list[0].at < list[i].at)
  {
    assert i < K ==> ApartAt(list, i, K);
    assert i > K + 1 ==> ApartAt(list, K + 1, i);
    assert i > 0 ==> ApartAt(list, 0, i);
  }

  lemma LiveUpdate(size: map<nat, nat>, live: map<nat, nat>, base: nat, brk: nat, size': map<nat, nat>,
                   live': map<nat, nat>)
    requires LiveOk(size, live, base, brk)
    requires forall a | a in live' :: a in live && live'[a] == live[a]
    requires forall a | a in live' && a in size :: a in size' && size'[a] == size[a]
    ensures LiveOk(size', live', base, brk)
  {
    forall a | a in live'
      ensures LiveAt(size', live', base, brk, a)
    {
      assert LiveAt(size, live, base, brk, a);
    }
    forall a, b | a in live' && b in live' && a != b
      ensures MissAt(live', a, b)
    {
      assert MissAt(live, a, b);
    }
  }

  /** Header-sized units for nbytes, with one for the header. */
  function NUnits(nbytes: nat): (n: nat)
    ensures 1 <= n && HEADER * (n - 1) >= nbytes && HEADER * (n - 1) < nbytes + HEADER
  {
    (nbytes + HEADER - 1) / HEADER + 1
  }

  /** Units morecore asks sbrk for. */
  function CoreUnits(n: nat): (c: nat)
    ensures c >= n && c >= MINCORE && (c == n || c == MINCORE)
  {
    if n < MINCORE then MINCORE else n
  }

  /** sbrk takes an int: the byte count is truncated to 32 bits, signed. */
  function SbrkArg(units: nat): int {
    var b := (units * HEADER) % 0x1_0000_0000;
    if b < 0x8000_0000 then b else b - 0x1_0000_0000
  }

  /** The largest request whose byte count survives the conversion. */
  const MAXBYTES: nat := 0x7fff_ffe0

  /** morecore obtains the memory it records just when the request is at most MAXBYTES. */
  lemma SbrkTruncates(nbytes: nat)
    requires nbytes < 0x1_0000_0000
    ensures SbrkArg(CoreUnits(NUnits(nbytes))) == CoreUnits(NUnits(nbytes)) * HEADER <==> nbytes <= MAXBYTES
  {
  }

  /** So a call of morecore keeps the account just when the request is. */
  lemma MorePaid(nbytes: nat, total: nat, got: int, n: nat)
    requires nbytes < 0x1_0000_0000 && n == NUnits(nbytes)
    ensures var c := CoreUnits(n);
            got == total * HEADER ==> (got + SbrkArg(c) == (total + c) * HEADER <==> nbytes <= MAXBYTES)
  {
    SbrkTruncates(nbytes);
  }

  /** Allocating n units from the end of x, between A and B. */
  ghost function Taken(A: seq<Blk>, x: Blk, n: nat, B: seq<Blk>): seq<Blk>
    requires n <= x.len
  {
    if x.len == n then A + B else A + [Blk(x.at, x.len - n)] + B
  }

  lemma TakenBounded(A: seq<Blk>, x: Blk, n: nat, B: seq<Blk>, base: nat, brk: nat)
    requires A != [] && 1 <= n <= x.len && Bounded(base, A + [x] + B, brk)
    ensures Bounded(base, Taken(A, x, n, B), brk)
  {
    var L := A + [x] + B;
    assert forall i | 0 <= i < |A| :: L[i] == A[i];
    assert L[|A|] == x;
    assert forall j | 0 <= j < |B| :: L[|A| + 1 + j] == B[j];
  }

  lemma FrontMisses(c: Blk, x: Blk, n: nat)
    requires n <= x.len && c.Misses(x)
    ensures c.Misses(Blk(x.at, x.len - n))
  {
  }

  lemma MissesBoth(c: Blk, A: seq<Blk>, B: seq<Blk>)
    requires MissesAll(c, A) && MissesAll(c, B)
    ensures MissesAll(c, A + B)
  {
  }

  lemma StillMisses(A: seq<Blk>, x: Blk, n: nat, B: seq<Blk>, c: Blk)
    requires n <= x.len && MissesAll(c, A + [x] + B)
    ensures MissesAll(c, Taken(A, x, n, B)) && c.Misses(x)
  {
    MissesParts(c, A + [x], B);
    MissesParts(c, A, [x]);
    assert [x][0] == x;
    if x.len == n {
      MissesBoth(c, A, B);
    } else {
      var y := Blk(x.at, x.len - n);
      FrontMisses(c, x, n);
      MissesBoth(c, A, [y]);
      MissesBoth(c, A + [y], B);
    }
  }

  lemma TakenMisses(A: seq<Blk>, x: Blk, n: nat, B: seq<Blk>)
    requires 1 <= n <= x.len && Apart(A + [x] + B)
    ensures MissesAll(Blk(x.End() - n, n), Taken(A, x, n, B))
  {
    var L, y := A + [x] + B, Blk(x.End() - n, n);
    assert L[|A|] == x;
    forall i | 0 <= i < |A|
      ensures y.Misses(A[i])
    {
      assert L[i] == A[i] && ApartAt(L, i, |A|);
    }
    forall j | 0 <= j < |B|
      ensures y.Misses(B[j])
    {
      assert L[|A| + 1 + j] == B[j] && ApartAt(L, |A|, |A| + 1 + j);
    }
  }

  lemma TakenApart(A: seq<Blk>, x: Blk, n: nat, B: seq<Blk>)
    requires 1 <= n <= x.len && Apart(A + [x] + B)
    ensures Apart(Taken(A, x, n, B))
  {
    ApartParts(A + [x], B);
    ApartParts(A, [x]);
    assert (A + [x])[|A|] == x;
    if x.len == n {
      forall i, j | 0 <= i < j < |A + B|
        ensures ApartAt(A + B, i, j)
      {
        assert j < |A| ==> ApartAt(A, i, j);
        assert i >= |A| ==> ApartAt(B, i - |A|, j - |A|);
        assert i < |A| <= j ==> (A + [x])[i] == A[i];
      }
    } else {
      SpliceApart(A, Blk(x.at, x.len - n), B);
    }
  }

  lemma TakenBlocks(A: seq<Blk>, x: Blk, n: nat, B: seq<Blk>, live: map<nat, nat>, base: nat, brk: nat)
    requires A != [] && 1 <= n <= x.len
    requires Apart(A + [x] + B) && Bounded(base, A + [x] + B, brk) && Clear(A + [x] + B, live)
    requires forall a | a in live :: live[a] >= 1
    ensures var list', a := Taken(A, x, n, B), x.End() - n;
            && Apart(list') && Bounded(base, list', brk) && Clear(list', live[a := n])
            && Units(list') + n == Units(A + [x] + B)
            && forall c | c in live :: Blk(c, live[c]).Misses(Blk(a, n)) && c != a
  {
    SpliceUnits(A, x, B);
    SpliceUnits(A, Blk(x.at, x.len - n), B);
    UnitsConcat(A, B);
    TakenApart(A, x, n, B);
    TakenBounded(A, x, n, B, base, brk);
    TakenMisses(A, x, n, B);
    var L := A + [x] + B;
    forall c | c in live
      ensures MissesAll(Blk(c, live[c]), Taken(A, x, n, B)) && Blk(c, live[c]).Misses(x)
    {
      assert MissesAll(Blk(c, live[c]), L);
      StillMisses(A, x, n, B, Blk(c, live[c]));
    }
  }

  /** Freeing what malloc has just taken restores the list exactly. */
  lemma FreeUndoesTake(A: seq<Blk>, x: Blk, n: nat, B: seq<Blk>)
    requires A != [] && 1 <= n <= x.len && Apart(A + [x] + B)
    ensures Freed(if x.len == n then A else A + [Blk(x.at, x.len - n)], Blk(x.End() - n, n), B) == A + [x] + B
  {
    var L := A + [x] + B;
    assert L[|A|] == x && L[|A| - 1] == A[|A| - 1] && ApartAt(L, |A| - 1, |A|);
    assert B != [] ==> L[|A| + 1] == B[0] && ApartAt(L, |A|, |A| + 1);
    var A' := if x.len == n then A else A + [Blk(x.at, x.len - n)];
    assert JoinRight(Blk(x.End() - n, n), B) == [Blk(x.End() - n, n)] + B;
    if x.len != n {
      assert A'[..|A|] == A;
      assert ([Blk(x.End() - n, n)] + B)[1..] == B;
    } else {
      assert A + ([x] + B) == L;
    }
  }

  /** The headers malloc writes to take n units from the block at p, whose predecessor is prevp. */
  ghost function TakePtr(ptr: map<nat, nat>, size: map<nat, nat>, prevp: nat, p: nat, n: nat): (r: Mem)
    requires p in ptr && p in size && n <= size[p]
  {
    if size[p] == n then Mem(ptr[prevp := ptr[p]], size)
    else Mem(ptr, size[p := size[p] - n][p + (size[p] - n) := n])
  }

  lemma TakeTail(ptr: map<nat, nat>, size: map<nat, nat>, list: seq<Blk>, c: nat, m: nat, a: nat, n: nat, e: nat)
    requires Segment(ptr, size, list, e) && forall k | 0 <= k < |list| :: list[k].at != c && list[k].at != a
    ensures Segment(ptr, size[c := m][a := n], list, e)
  {
    var size' := size[c := m][a := n];
    forall k: nat | k < |list|
      ensures LinkAt(ptr, size', list, e, k)
    {
      assert LinkAt(ptr, size, list, e, k);
    }
  }

  lemma TakeMemory(ptr: map<nat, nat>, size: map<nat, nat>, A: seq<Blk>, x: Blk, n: nat, B: seq<Blk>, e: nat)
    requires Segment(ptr, size, A + [x] + B, e) && A != [] && 1 <= n <= x.len && Apart(A + [x] + B)
    ensures x.at in ptr && x.at in size && size[x.at] == x.len
    ensures var m' := TakePtr(ptr, size, A[|A| - 1].at, x.at, n);
            Segment(m'.ptr, m'.size, Taken(A, x, n, B), e)
  {
    var m, L, p := |A| - 1, A + [x] + B, A[|A| - 1];
    assert L[|A|] == x && L[m] == p;
    assert LinkAt(ptr, size, L, e, |A|) && LinkAt(ptr, size, L, e, m);
    SegmentSplit(ptr, size, A + [x], B, e);
    SegmentSplit(ptr, size, A, [x], Front(B, e));
    forall i | 0 <= i < m
      ensures A[i].at != p.at
    {
      assert L[i] == A[i] && ApartAt(L, i, m);
    }
    if x.len == n {
      forall j | 0 <= j < |B|
        ensures B[j].at != p.at
      {
        assert L[|A| + 1 + j] == B[j] && ApartAt(L, m, |A| + 1 + j);
      }
      assert A == A[..m] + [p];
      SegmentSplit(ptr, size, A[..m], [p], x.at);
      SegmentFrame(ptr, size, A[..m], p.at, p.at, Front(B, e), p.len);
      SegmentFrame(ptr, size, B, e, p.at, Front(B, e), p.len);
      OneSegment(ptr, size, p, Front(B, e));
      assert size[p.at := p.len] == size;
      SegmentJoin(ptr[p.at := Front(B, e)], size, A[..m], [p], Front(B, e));
      SegmentJoin(ptr[p.at := Front(B, e)], size, A, B, e);
    } else {
      var y, a := Blk(x.at, x.len - n), x.End() - n;
      forall i | 0 <= i < |A|
        ensures A[i].at != x.at && A[i].at != a
      {
        assert L[i] == A[i] && ApartAt(L, i, |A|);
      }
      forall j | 0 <= j < |B|
        ensures B[j].at != x.at && B[j].at != a
      {
        assert L[|A| + 1 + j] == B[j] && ApartAt(L, |A|, |A| + 1 + j);
      }
      TakeTail(ptr, size, A, x.at, y.len, a, n, x.at);
      TakeTail(ptr, size, B, x.at, y.len, a, n, e);
      var size' := size[x.at := y.len][a := n];
      assert LinkAt(ptr, size', [y], Front(B, e), 0);
      SegmentJoin(ptr, size', A, [y], Front(B, e));
      SegmentJoin(ptr, size', A + [y], B, e);
    }
  }

  lemma TakeLive(ptr: map<nat, nat>, size: map<nat, nat>, live: map<nat, nat>, base: nat, brk: nat, prevp: nat, x: Blk,
                 n: nat)
    requires LiveOk(size, live, base, brk) && 1 <= n <= x.len && base < x.at && x.End() <= brk
    requires x.at in ptr && x.at in size && size[x.at] == x.len
    requires forall c | c in live :: Blk(c, live[c]).Misses(Blk(x.End() - n, n)) && c != x.End() - n && c != x.at
    ensures LiveOk(TakePtr(ptr, size, prevp, x.at, n).size, live[x.End() - n := n], base, brk)
  {
    var a, size', live' := x.End() - n, TakePtr(ptr, size, prevp, x.at, n).size, live[x.End() - n := n];
    LiveSizes(size, live, base, brk);
    forall c | c in live'
      ensures LiveAt(size', live', base, brk, c)
    {
    }
    forall c, d | c in live' && d in live' && c != d
      ensures MissAt(live', c, d)
    {
      assert c != a && d != a ==> MissAt(live, c, d);
    }
  }

  lemma ListMissesLive(list: seq<Blk>, live: map<nat, nat>, size: map<nat, nat>, base: nat, brk: nat, k: nat)
    requires Bounded(base, list, brk) && LiveOk(size, live, base, brk) && Clear(list, live) && k < |list|
    ensures forall a | a in live :: a != list[k].at
  {
    LiveSizes(size, live, base, brk);
    forall a | a in live
      ensures a != list[k].at
    {
      assert MissesAll(Blk(a, live[a]), list);
      assert Blk(a, live[a]).Misses(list[k]);
    }
  }

  /** malloc's step on the whole heap. */
  lemma TakeOk(base: nat, ptr: map<nat, nat>, size: map<nat, nat>, A: seq<Blk>, x: Blk, B: seq<Blk>,
               live: map<nat, nat>, brk: nat, n: nat)
    requires HeapOk(base, Mem(ptr, size), A + [x] + B, live, brk) && A != [] && 1 <= n <= x.len
    ensures x.at in ptr && x.at in size && size[x.at] == x.len
    ensures var m' := TakePtr(ptr, size, A[|A| - 1].at, x.at, n);
            var a, list' := x.End() - n, Taken(A, x, n, B);
            && HeapOk(base, m', list', live[a := n], brk)
            && a !in live && |list'| >= |A| && list'[|A| - 1] == A[|A| - 1]
            && Units(list') + n == Units(A + [x] + B)
  {
    var L := A + [x] + B;
    assert L[|A|] == x && L[0] == A[0] && ApartAt(L, 0, |A|);
    TakeMemory(ptr, size, A, x, n, B, base);
    LiveSizes(size, live, base, brk);
    TakenBlocks(A, x, n, B, live, base, brk);
    ListMissesLive(L, live, size, base, brk, |A|);
    TakeLive(ptr, size, live, base, brk, A[|A| - 1].at, x, n);
  }

  lemma TakeAll(base: nat, ptr: map<nat, nat>, size: map<nat, nat>, A: seq<Blk>, x: Blk, B: seq<Blk>,
                live: map<nat, nat>, brk: nat, total: nat, n: nat) returns (live': map<nat, nat>)
    requires HeapOk(base, Mem(ptr, size), A + [x] + B, live, brk) && A != [] && 1 <= n <= x.len
    requires Units(A + [x] + B) + Sum(live) == total
    ensures x.at in ptr && x.at in size && size[x.at] == x.len
    ensures x.End() - n !in live && live' == live[x.End() - n := n]
    ensures var list' := Taken(A, x, n, B);
            && HeapOk(base, TakePtr(ptr, size, A[|A| - 1].at, x.at, n), list', live', brk)
            && Units(list') + Sum(live') == total
            && |list'| >= |A| && list'[|A| - 1] == A[|A| - 1]
  {
    TakeOk(base, ptr, size, A, x, B, live, brk, n);
    live' := live[x.End() - n := n];
    SumUpdate(live, x.End() - n, n);
  }

  lemma FreepIndex(list: seq<Blk>, freep: nat) returns (f: nat)
    requires Apart(list) && exists k :: 0 <= k < |list| && list[k].at == freep
    ensures f < |list| && list[f].at == freep && forall k | 0 <= k < |list| && list[k].at == freep :: k == f
  {
    f :| f < |list| && list[f].at == freep;
    forall k | 0 <= k < |list| && list[k].at == freep
      ensures k == f
    {
      assert k < f ==> ApartAt(list, k, f);
      assert f < k ==> ApartAt(list, f, k);
    }
  }

  /** A block fresh from sbrk, live until free takes it. */
  lemma GrowOk(base: nat, ptr: map<nat, nat>, size: map<nat, nat>, list: seq<Blk>, live: map<nat, nat>, brk: nat,
               hp: nat, n: nat)
    requires HeapOk(base, Mem(ptr, size), list, live, brk) && hp >= brk && n >= 1
    ensures HeapOk(base, Mem(ptr, size[hp := n]), list, live[hp := n], hp + n) && hp !in live
  {
    LiveSizes(size, live, base, brk);
    var size', live' := size[hp := n], live[hp := n];
    forall a | a in live'
      ensures LiveAt(size', live', base, hp + n, a) && MissesAll(Blk(a, live'[a]), list)
    {
      assert a != hp ==> MissesAll(Blk(a, live[a]), list);
    }
    forall a, b | a in live' && b in live' && a != b
      ensures MissAt(live', a, b)
    {
      assert a != hp && b != hp ==> MissAt(live, a, b);
    }
    TakeTail(ptr, size, list, hp, n, hp, n, base);
    assert size[hp := n][hp := n] == size[hp := n];
  }

  /** After free, the block is at its predecessor's place or the next. */
  lemma FreedFits(A: seq<Blk>, b: Blk, B: seq<Blk>)
    requires A != []
    ensures var list', f := Freed(A, b, B), |A| - 1;
            |list'| >= |A| && (list'[f].len >= b.len || (f + 1 < |list'| && list'[f + 1].len >= b.len))
  {
    var R := JoinRight(b, B);
    assert R[0].len >= b.len;
  }

  // ---- The scan

  /** Steps from element f round the list to element k; f itself is a full turn away. */
  function Steps(N: nat, f: nat, k: nat): int {
    if k > f then k - f else k - f + N
  }

  /** q is the first element after f, going round, with room for n. */
  ghost predicate FirstFit(list: seq<Blk>, f: nat, n: nat, q: nat) {
    && f < |list| && q < |list| && list[q].len >= n
    && forall k: nat | k < |list| && Steps(|list|, f, k) < Steps(|list|, f, q) :: list[k].len < n
  }

  /** The headers free writes, given the place it found. */
  ghost function FreePtr(ptr: map<nat, nat>, size: map<nat, nat>, p: nat, bp: nat): (r: Mem)
    requires p in ptr && p in size && bp in size && bp != p
    requires bp + size[bp] == ptr[p] ==> ptr[p] in ptr && ptr[p] in size
  {
    var (size1, ptr1) :=
      if bp + size[bp] == ptr[p] then (size[bp := size[bp] + size[ptr[p]]], ptr[bp := ptr[ptr[p]]])
      else (size, ptr[bp := ptr[p]]);
    if p + size[p] == bp then Mem(ptr1[p := ptr1[bp]], size1[p := size1[p] + size1[bp]])
    else Mem(ptr1[p := bp], size1)
  }

  /** free leaves Freed in memory. */
  lemma FreeMemory(ptr: map<nat, nat>, size: map<nat, nat>, A: seq<Blk>, b: Blk, B: seq<Blk>, base: nat)
    requires Segment(ptr, size, A + B, base) && A != [] && base < b.at && b.at in size && size[b.at] == b.len
    requires forall i | 0 <= i < |A| :: A[i].at < b.at
    requires forall j | 0 <= j < |B| :: b.at < B[j].at
    requires forall i, j | 0 <= i < j < |A| :: A[i].at != A[j].at
    ensures var p := A[|A| - 1].at;
            && p in ptr && p in size && size[p] == A[|A| - 1].len
            && (b.End() == ptr[p] <==> Touches(b, B))
            && (Touches(b, B) ==> B[0].at == ptr[p] && B[0].at in ptr && B[0].at in size)
    ensures var m' := FreePtr(ptr, size, A[|A| - 1].at, b.at);
            Segment(m'.ptr, m'.size, Freed(A, b, B), base)
  {
    var x, R := A[|A| - 1], JoinRight(b, B);
    SegmentSplit(ptr, size, A, B, base);
    assert LinkAt(ptr, size, A, Front(B, base), |A| - 1);
    assert B != [] ==> LinkAt(ptr, size, B, base, 0);
    RightInMemory(ptr, size, b, B, base);
    var size1, ptr1 := size[b.at := R[0].len], ptr[b.at := if Touches(b, B) then ptr[B[0].at] else Front(B, base)];
    SegmentFrame(ptr, size, A, Front(B, base), b.at, ptr1[b.at], R[0].len);
    LeftInMemory(ptr1, size1, A, R, base, Front(B, base));
    assert size[b.at := b.len] == size;
    assert size1[x.at := x.len] == size1;
  }

  /** The blocks of the heap after free. */
  lemma FreeBlocks(A: seq<Blk>, b: Blk, B: seq<Blk>, live: map<nat, nat>, base: nat, brk: nat)
    requires Apart(A + B) && Bounded(base, A + B, brk) && Clear(A + B, live) && Between(A, b, B) && b.End() <= brk
    requires forall a | a in live :: live[a] >= 1 && Blk(a, live[a]).Misses(b)
    ensures var list' := Freed(A, b, B);
            && Apart(list') && Bounded(base, list', brk) && Clear(list', live)
            && Units(list') == Units(A + B) + b.len
            && |list'| >= |A| && list'[|A| - 1].at == A[|A| - 1].at
  {
    FreedApart(A, b, B);
    FreedClear(A, b, B, live);
    FreedBounded(A, b, B, base, brk);
    FreedUnits(A, b, B);
  }

  /** free writes no other live block's header. */
  lemma FreeLive(ptr: map<nat, nat>, size: map<nat, nat>, live: map<nat, nat>, base: nat, brk: nat, x: Blk, bp: nat)
    requires LiveOk(size, live, base, brk) && bp in live && bp in size && x.at != bp && x.at in ptr && x.at in size
    requires forall a | a in live :: a != x.at
    requires bp + size[bp] == ptr[x.at] ==> ptr[x.at] in ptr && ptr[x.at] in size
    ensures LiveOk(FreePtr(ptr, size, x.at, bp).size, live - {bp}, base, brk)
  {
    LiveUpdate(size, live, base, brk, FreePtr(ptr, size, x.at, bp).size, live - {bp});
  }

  lemma FreeOk(base: nat, ptr: map<nat, nat>, size: map<nat, nat>, A: seq<Blk>, B: seq<Blk>, live: map<nat, nat>,
               brk: nat, bp: nat)
    requires HeapOk(base, Mem(ptr, size), A + B, live, brk) && bp in live && bp in size
    requires Between(A, Blk(bp, live[bp]), B)
    requires forall i | 0 <= i < |A| :: A[i].at < bp
    requires forall j | 0 <= j < |B| :: bp < B[j].at
    ensures var p := A[|A| - 1].at;
            p in ptr && p in size && p != bp && (bp + size[bp] == ptr[p] ==> ptr[p] in ptr && ptr[p] in size)
    ensures var m' := FreePtr(ptr, size, A[|A| - 1].at, bp);
            var list' := Freed(A, Blk(bp, live[bp]), B);
            && HeapOk(base, m', list', live - {bp}, brk)
            && |list'| >= |A| && list'[|A| - 1].at == A[|A| - 1].at
            && Units(list') == Units(A + B) + live[bp]
  {
    var L, b, m := A + B, Blk(bp, live[bp]), |A| - 1;
    assert L[m] == A[m] && L[0] == A[0];
    LiveSizes(size, live, base, brk);
    forall i, j | 0 <= i < j < |A|
      ensures A[i].at != A[j].at
    {
      assert L[i] == A[i] && L[j] == A[j] && ApartAt(L, i, j);
    }
    forall a | a in live - {bp}
      ensures (live - {bp})[a] >= 1 && Blk(a, (live - {bp})[a]).Misses(b) && MissesAll(Blk(a, (live - {bp})[a]), L)
    {
      assert MissAt(live, a, bp) && MissesAll(Blk(a, live[a]), L);
    }
    FreeMemory(ptr, size, A, b, B, base);
    FreeBlocks(A, b, B, live - {bp}, base, brk);
    ListMissesLive(L, live, size, base, brk, m);
    FreeLive(ptr, size, live, base, brk, A[m], bp);
  }

  lemma FreeAll(base: nat, ptr: map<nat, nat>, size: map<nat, nat>, A: seq<Blk>, B: seq<Blk>, live: map<nat, nat>,
                brk: nat, total: nat, bp: nat, p: nat)
    returns (list': seq<Blk>, live': map<nat, nat>)
    requires HeapOk(base, Mem(ptr, size), A + B, live, brk) && bp in live && bp in size
    requires Between(A, Blk(bp, live[bp]), B) && p == A[|A| - 1].at
    requires forall i | 0 <= i < |A| :: A[i].at < bp
    requires forall j | 0 <= j < |B| :: bp < B[j].at
    requires Units(A + B) + Sum(live) == total
    ensures p in ptr && p in size && p != bp && (bp + size[bp] == ptr[p] ==> ptr[p] in ptr && ptr[p] in size)
    ensures HeapOk(base, FreePtr(ptr, size, p, bp), list', live', brk) && Units(list') + Sum(live') == total
    ensures list' == Freed(A, Blk(bp, live[bp]), B) && live' == live - {bp}
    ensures |list'| >= |A| && list'[|A| - 1].at == p
  {
    FreeOk(base, ptr, size, A, B, live, brk, bp);
    SumRemove(live, bp);
    list', live' := Freed(A, Blk(bp, live[bp]), B), live - {bp};
  }

  class Heap {
    /** Address of the static header. */
    const base: nat
    /** The headers in memory. */
    var ptr: map<nat, nat>
    var size: map<nat, nat>
    /** 0 before the first malloc. */
    var freep: nat
    /** The free list from `base` up, the live blocks, the end of the heap and all units, as the headers have it,
        and the bytes that sbrk was asked for. */
    ghost var list: seq<Blk>
    ghost var live: map<nat, nat>
    ghost var brk: nat
    ghost var total: nat
    ghost var got: int

    /** A program's start: nothing allocated, memory above the static header up to `end`. */
    constructor (header: nat, end: nat)
      requires 0 < header < end
      ensures Valid() && base == header && brk == end && freep == 0 && total == 0 && Paid()
    {
      base, ptr, size, freep := header, map[], map[], 0;
      list, live, brk, total, got := [], map[], end, 0, 0;
    }

    /** An initialised heap. */
    ghost predicate Ready()
      reads this
    {
      && HeapOk(base, Mem(ptr, size), list, live, brk)
      && (exists k :: 0 <= k < |list| && list[k].at == freep)
      && Units(list) + Sum(live) == total
    }

    /** All units that the headers account for were asked of sbrk. */
    ghost predicate Paid()
      reads this
    {
      got == total * HEADER
    }

    /** What the allocator keeps between calls. */
    ghost predicate Valid()
      reads this
    {
      if freep == 0 then list == [] && live == map[] && total == 0 && 0 < base < brk else Ready()
    }

    /** free's loop: find the place of bp, starting anywhere. */
    method FindPlace(bp: nat, ghost K: nat) returns (p: nat)
      requires InMemory(ptr, size, list) && Apart(list) && list != [] && list[0].at < bp && Place(list, K, bp)
      requires exists k :: 0 <= k < |list| && list[k].at == freep
      ensures p == list[K].at
    {
      p := freep;
      ghost var i :| 0 <= i < |list| && list[i].at == p;
      PlaceOrder(list, K, bp, i);
      PlaceOrder(list, K, bp, if i + 1 < |list| then i + 1 else 0);
      assert i + 1 < |list| ==> ApartAt(list, i, i + 1);
      assert LinkAt(ptr, size, list, list[0].at, i);
      while !(bp > p && bp < ptr[p])
        invariant 0 <= i < |list| && p == list[i].at && LinkAt(ptr, size, list, list[0].at, i)
        invariant (p < bp <==> i <= K) && (ptr[p] < bp <==> i + 1 <= K || i + 1 == |list|)
        invariant p >= ptr[p] <==> i + 1 == |list|
        decreases if i <= K then K - i else |list| + K - i
      {
        if p >= ptr[p] && (bp > p || bp < ptr[p]) {
          break;
        }
        p := ptr[p];
        i := if i + 1 < |list| then i + 1 else 0;
        PlaceOrder(list, K, bp, i);
        PlaceOrder(list, K, bp, if i + 1 < |list| then i + 1 else 0);
        assert i + 1 < |list| ==> ApartAt(list, i, i + 1);
        assert LinkAt(ptr, size, list, list[0].at, i);
      }
    }

    /** free's header writes around the place p it found. */
    method Splice(p: nat, bp: nat)
      requires p in ptr && p in size && bp in size && bp != p
      requires bp + size[bp] == ptr[p] ==> ptr[p] in ptr && ptr[p] in size
      modifies `ptr, `size, `freep
      ensures Mem(ptr, size) == FreePtr(old(ptr), old(size), p, bp) && freep == p
    {
      if bp + size[bp] == ptr[p] {
        size, ptr := size[bp := size[bp] + size[ptr[p]]], ptr[bp := ptr[ptr[p]]];
      } else {
        ptr := ptr[bp := ptr[p]];
      }
      if p + size[p] == bp {
        size, ptr := size[p := size[p] + size[bp]], ptr[p := ptr[bp]];
      } else {
        ptr := ptr[p := bp];
      }
      freep := p;
    }

    /** The block at bp joins the list between A and B. */
    method Insert(p: nat, bp: nat, ghost A: seq<Blk>, ghost B: seq<Blk>)
      requires Ready() && bp in live && bp in size && list == A + B && Between(A, Blk(bp, live[bp]), B)
      requires p == A[|A| - 1].at
      requires forall i | 0 <= i < |A| :: A[i].at < bp
      requires forall j | 0 <= j < |B| :: bp < B[j].at
      modifies `ptr, `size, `freep, `list, `live
      ensures Ready() && live == old(live) - {bp} && unchanged(`brk, `total, `got)
      ensures list == Freed(A, Blk(bp, old(live)[bp]), B) && freep == p
    {
      ghost var list', live' := FreeAll(base, ptr, size, A, B, live, brk, total, bp, p);
      Splice(p, bp);
      list, live := list', live';
    }

    /** free: the block's units join the list, merged with whichever neighbours they touch. */
    method Free(ap: nat) returns (ghost A: seq<Blk>, ghost B: seq<Blk>)
      requires Ready() && ap >= 1 && ap - 1 in live
      modifies `ptr, `size, `freep, `list, `live
      ensures Ready() && live == old(live) - {ap - 1} && unchanged(`brk, `total, `got)
      ensures old(list) == A + B && Between(A, Blk(ap - 1, old(live)[ap - 1]), B)
      ensures list == Freed(A, Blk(ap - 1, old(live)[ap - 1]), B) && freep == A[|A| - 1].at
    {
      var bp := ap - 1;
      A, B := LiveBetween(base, list, live, size, brk, bp);
      LiveSizes(size, live, base, brk);
      assert Place(list, |A| - 1, bp);
      var p := FindPlace(bp, |A| - 1);
      Insert(p, bp, A, B);
    }

    /** sbrk of n units, passed as an int, and the header write that makes the new memory one live block of n units. */
    method Sbrk(hp: nat, n: nat)
      requires Ready() && n >= 1 && hp >= brk
      modifies `size, `live, `brk, `total, `got
      ensures Ready() && unchanged(`ptr, `list, `freep)
      ensures hp !in old(live) && live == old(live)[hp := n] && brk == hp + n && total == old(total) + n
      ensures got == old(got) + SbrkArg(n)
    {
      GrowOk(base, ptr, size, list, live, brk, hp, n);
      SumUpdate(live, hp, n);
      size := size[hp := n];
      live, brk, total, got := live[hp := n], hp + n, total + n, got + SbrkArg(n);
    }

    /** morecore: `grant` is where sbrk puts the new memory, if it can. */
    method Morecore(nu: nat, grant: Option<nat>) returns (p: nat, ghost f: nat)
      requires Ready() && nu >= 1 && (grant.Some? ==> grant.value >= brk)
      modifies this
      ensures grant.None? ==> p == 0 && unchanged(this)
      ensures grant.Some? ==>
        && Ready() && p == freep != 0 && live == old(live) && total == old(total) + CoreUnits(nu)
        && got == old(got) + SbrkArg(CoreUnits(nu))
        && f < |list| && list[f].at == freep && brk == grant.value + CoreUnits(nu)
        && (list[f].len >= nu || (f + 1 < |list| && list[f + 1].len >= nu))
    {
      f := 0;
      if grant.None? {
        return 0, f;
      }
      var n := CoreUnits(nu);
      var hp := grant.value;
      Sbrk(hp, n);
      ghost var A, B := Free(hp + 1);
      FreedFits(A, Blk(hp, n), B);
      PutRemove(old(live), hp, n);
      f := |A| - 1;
      assert f > 0 ==> ApartAt(list, 0, f);
      p := freep;
    }

    /** malloc's header writes: n units off the end of the block at p. */
    method Carve(prevp: nat, p0: nat, n: nat) returns (p: nat)
      requires p0 in ptr && p0 in size && n <= size[p0]
      modifies `ptr, `size, `freep
      ensures Mem(ptr, size) == TakePtr(old(ptr), old(size), prevp, p0, n) && freep == prevp
      ensures p == p0 + old(size)[p0] - n
    {
      p := p0;
      if size[p] == n {
        ptr := ptr[prevp := ptr[p]];
      } else {
        size := size[p := size[p] - n];
        p := p + size[p];
        size := size[p := n];
      }
      freep := prevp;
    }

    /** Take n units from x, between A and B. */
    method Take(prevp: nat, p: nat, n: nat, ghost A: seq<Blk>, ghost x: Blk, ghost B: seq<Blk>) returns (ap: nat)
      requires Ready() && list == A + [x] + B && A != [] && 1 <= n <= x.len && p == x.at && prevp == A[|A| - 1].at
      modifies `ptr, `size, `freep, `list, `live
      ensures Ready() && unchanged(`brk, `total, `got)
      ensures ap - 1 == x.End() - n && ap - 1 !in old(live) && live == old(live)[ap - 1 := n]
      ensures list == Taken(A, x, n, B) && freep == prevp
    {
      ghost var live' := TakeAll(base, ptr, size, A, x, B, live, brk, total, n);
      var h := Carve(prevp, p, n);
      list, live := Taken(A, x, n, B), live';
      ap := h + 1;
    }

    /** The same for element q, whose predecessor is at prevp. */
    method TakeAt(prevp: nat, p: nat, n: nat, ghost q: nat) returns (ap: nat)
      requires Ready() && 1 <= q < |list| && 1 <= n <= list[q].len && p == list[q].at && prevp == list[q - 1].at
      modifies `ptr, `size, `freep, `list, `live
      ensures Ready() && unchanged(`brk, `total, `got)
      ensures ap - 1 == old(list)[q].End() - n && ap - 1 !in old(live) && live == old(live)[ap - 1 := n]
    {
      ghost var A, B := Cut(list, q);
      ghost var X, C := Cut(B, 1);
      assert X == [X[0]] && A[q - 1] == list[q - 1] && X[0] == B[0] == list[q];
      assert list == A + [X[0]] + C;
      ap := Take(prevp, p, n, A, X[0], C);
    }

    /** malloc's start: an empty list holds the static header alone. */
    method Init()
      requires Valid()
      modifies `ptr, `size, `freep, `list
      ensures Ready() && unchanged(`live, `brk, `total, `got)
      ensures if old(freep) == 0 then list == [Blk(base, 0)] && freep == base else unchanged(this)
    {
      if freep == 0 {
        ptr, freep := ptr[base := base], base;
        size := size[base := 0];
        list := [Blk(base, 0)];
        assert LinkAt(ptr, size, list, base, 0);
        assert Sum(live) == 0 && Units(list) == 0;
      }
    }

    /** One turn of malloc's loop round the list, from freep until a block fits or freep is met again. */
    method Scan(n: nat, ghost f: nat) returns (found: bool, prevp: nat, p: nat, ghost q: nat)
      requires InMemory(ptr, size, list) && f < |list| && list[f].at == freep && n >= 1
      requires list[0].len == 0 && forall k | 0 <= k < |list| && list[k].at == freep :: k == f
      ensures found ==> FirstFit(list, f, n, q) && 1 <= q && p == list[q].at && prevp == list[q - 1].at
      ensures !found ==> forall k | 0 <= k < |list| :: list[k].len < n
    {
      var e := list[0].at;
      q := if f + 1 < |list| then f + 1 else 0;
      assert LinkAt(ptr, size, list, e, f) && LinkAt(ptr, size, list, e, q);
      prevp := freep;
      p := ptr[prevp];
      while size[p] < n && p != freep
        invariant q < |list| && p == list[q].at && prevp == list[if q > 0 then q - 1 else |list| - 1].at
        invariant LinkAt(ptr, size, list, e, q)
        invariant forall k: nat | k < |list| && Steps(|list|, f, k) < Steps(|list|, f, q) :: list[k].len < n
        decreases |list| - Steps(|list|, f, q)
      {
        prevp, q := p, if q + 1 < |list| then q + 1 else 0;
        p := ptr[p];
        assert LinkAt(ptr, size, list, e, q);
      }
      found := size[p] >= n;
    }

    /** A turn round the list, with the block taken if there is one. */
    method Turn(n: nat) returns (found: bool, ap: nat, ghost f: nat, ghost q: nat)
      requires Ready() && n >= 1
      modifies `ptr, `size, `freep, `list, `live
      ensures Ready() && f < |old(list)| && old(list)[f].at == old(freep)
      ensures !found ==> unchanged(this) && forall k | 0 <= k < |list| :: list[k].len < n
      ensures found ==>
                && ap >= 1 && FirstFit(old(list), f, n, q) && ap - 1 == old(list)[q].End() - n
                && ap - 1 !in old(live) && live == old(live)[ap - 1 := n] && unchanged(`brk, `total, `got)
    {
      f := FreepIndex(list, freep);
      ap := 0;
      var prevp, p;
      found, prevp, p, q := Scan(n, f);
      if found {
        ap := TakeAt(prevp, p, n, q);
      }
    }

    /** malloc's loop, for n units: at most one call of morecore, after which a second turn always finds room. */
    method Find(n: nat, grant: Option<nat>) returns (ap: nat, calls: nat, ghost f: nat, ghost q: nat)
      requires Ready() && n >= 1 && (grant.Some? ==> grant.value >= brk)
      modifies this
      ensures Ready() && calls <= 1 && (ap == 0 <==> calls == 1 && grant.None?)
      ensures ap == 0 ==> unchanged(this)
      ensures ap != 0 ==> ap - 1 !in old(live) && live == old(live)[ap - 1 := n]
      ensures calls == 1 ==> forall k | 0 <= k < |old(list)| :: old(list)[k].len < n
      ensures calls == 1 && ap != 0 ==> total == old(total) + CoreUnits(n) && got == old(got) + SbrkArg(CoreUnits(n))
      ensures calls == 0 ==>
                && unchanged(`total, `got) && FirstFit(old(list), f, n, q) && old(list)[f].at == old(freep)
                && ap - 1 == old(list)[q].End() - n
    {
      calls := 0;
      while true
        invariant Ready() && calls <= 1 && live == old(live) && (calls == 0 ==> unchanged(this))
        invariant calls == 1 ==> grant.Some? && exists k :: 0 <= k < |list| && list[k].len >= n
        invariant calls == 1 ==> total == old(total) + CoreUnits(n) && got == old(got) + SbrkArg(CoreUnits(n))
        invariant calls == 1 ==> forall k | 0 <= k < |old(list)| :: old(list)[k].len < n
        decreases 1 - calls
      {
        var found, p;
        found, ap, f, q := Turn(n);
        if found {
          return;
        }
        assert calls == 0;
        calls := calls + 1;
        p, f := Morecore(n, grant);
        if p == 0 {
          return 0, calls, f, q;
        }
      }
    }

    /** malloc. `grant` is what sbrk would answer; `calls` counts the calls of morecore. A result of 0 means that
        nothing fits and sbrk failed. */
    method Malloc(nbytes: nat, grant: Option<nat>) returns (ap: nat, calls: nat, ghost f: nat, ghost q: nat)
      requires Valid() && nbytes < 0x1_0000_0000 && (grant.Some? ==> grant.value >= brk)
      modifies this
      ensures Ready() && calls <= 1
      ensures ap == 0 <==> calls == 1 && grant.None?
      ensures ap == 0 ==> live == old(live) && total == old(total) && got == old(got)
      ensures ap == 0 ==> forall k | 0 <= k < |list| :: list[k].len < NUnits(nbytes)
      ensures ap != 0 ==> ap - 1 !in old(live) && live == old(live)[ap - 1 := NUnits(nbytes)]
      ensures ap != 0 ==> total == old(total) + if calls == 1 then CoreUnits(NUnits(nbytes)) else 0
      ensures old(Paid()) ==> (Paid() <==> ap == 0 || calls == 0 || nbytes <= MAXBYTES)
      ensures calls == 1 && old(freep) != 0 ==> forall k | 0 <= k < |old(list)| :: old(list)[k].len < NUnits(nbytes)
      ensures calls == 0 && old(freep) != 0 ==>
                && FirstFit(old(list), f, NUnits(nbytes), q) && old(list)[f].at == old(freep)
                && ap - 1 == old(list)[q].End() - NUnits(nbytes)
    {
      MorePaid(nbytes, total, got, NUnits(nbytes));
      Init();
      ap, calls, f, q := Find(NUnits(nbytes), grant);
    }
  }
}
