/** Inodes over the block bitmap: direct and indirect blocks as one byte array per inode. */
module Inodes {
  import opened Bytes
  import opened Counters
  import opened Folding
  import opened Lists
  import opened Params

  const NDIRECT: nat := 12

  const NINDIRECT: nat := 256

  const MAXFILE: nat := 268

  /** Block numbers: inode blocks, then the free map, then data; there are size blocks. */
  datatype Super = Super(size: nat, inodestart: nat, bmapstart: nat, data: nat) {
    ghost predicate Ok() { 0 < inodestart < bmapstart && bmapstart + size / BPB < data <= size < U32 }
  }

  /** The in-core part of an inode that is about its contents. */
  datatype Inode = Inode(addrs: seq<int>, size: nat)

  datatype Fs = Fs(blocks: seq<Block>, inodes: seq<Inode>)

  /** What a data block can be used for: block k of an inode, or its indirect block. */
  datatype Use = Data(ino: nat, k: nat) | Indirect(ino: nat)

  ghost predicate Shape(s: Fs, sb: Super) {
    && sb.Ok() && |s.blocks| == sb.size
    && (forall b {:trigger s.blocks[b]} | 0 <= b < |s.blocks| :: |s.blocks[b]| == BSIZE)
    && (forall i {:trigger s.inodes[i]} | 0 <= i < |s.inodes| :: |s.inodes[i].addrs| == NDIRECT + 1)
  }

  function Addr(s: Fs, i: nat, k: nat): int {
    if i < |s.inodes| && k < |s.inodes[i].addrs| then s.inodes[i].addrs[k] else 0
  }

  function Word(s: Fs, b: int, j: nat): int {
    if 0 < b < |s.blocks| && |s.blocks[b]| == BSIZE && j < NINDIRECT then WordAt(s.blocks[b], j) else 0
  }

  /** The block number recorded for a use; 0 if none. */
  function Ptr(s: Fs, u: Use): int {
    match u
    case Indirect(i) => Addr(s, i, NDIRECT)
    case Data(i, k) => if k < NDIRECT then Addr(s, i, k) else Word(s, Addr(s, i, NDIRECT), k - NDIRECT)
  }

  /** Where bmap sends block k of inode i when it has none and no block is free: to block 0, or, when
      even the indirect block is missing, to what block 0 holds in the place of the entry. */
  function Stray(s: Fs, i: nat, k: nat): int
    requires 0 < |s.blocks| && |s.blocks[0]| == BSIZE && k < MAXFILE
  {
    if k >= NDIRECT && Ptr(s, Indirect(i)) == 0 then WordAt(s.blocks[0], k - NDIRECT) else 0
  }

  predicate UseOk(s: Fs, u: Use) { u.ino < |s.inodes| && (u.Data? ==> u.k < MAXFILE) }

  /** Each recorded block number is an owned data block, and is recorded once. */
  ghost predicate Linked(s: Fs, sb: Super, own: map<int, Use>) {
    && (forall u {:trigger Ptr(s, u)} | UseOk(s, u) && Ptr(s, u) != 0 :: Ptr(s, u) in own && own[Ptr(s, u)] == u)
    && (forall p {:trigger own[p]} | p in own :: UseOk(s, own[p]) && Ptr(s, own[p]) == p && sb.data <= p < sb.size)
  }

  /** The allocated bits are the metadata blocks and `keys`. */
  ghost predicate Bits(blocks: seq<Block>, sb: Super, keys: set<int>) {
    forall b: nat {:trigger BitAt(blocks, sb.bmapstart, b)} | b < sb.size ::
      BitAt(blocks, sb.bmapstart, b) <==> b < sb.data || b in keys
  }

  /** Block k of inode i, zero where nothing is allocated. */
  function FileBlock(s: Fs, i: nat, k: nat): Block {
    var p := Ptr(s, Data(i, k));
    if 0 < p < |s.blocks| then s.blocks[p] else Zero()
  }

  /** s' records p for u; other uses are recorded as before. */
  ghost predicate PtrPut(s: Fs, s': Fs, u: Use, p: int) {
    && |s'.inodes| == |s.inodes|
    && forall v {:trigger Ptr(s', v)} | UseOk(s, v) :: Ptr(s', v) == if v == u then p else Ptr(s, v)
  }

  lemma LinkNew(s: Fs, s': Fs, sb: Super, own: map<int, Use>, u: Use, p: int)
    requires Linked(s, sb, own) && PtrPut(s, s', u, p) && UseOk(s, u) && Ptr(s, u) == 0
    requires p !in own && 0 < sb.data <= p < sb.size
    ensures Linked(s', sb, own[p := u])
  {
    var own' := own[p := u];
    forall v | UseOk(s', v) && Ptr(s', v) != 0
      ensures Ptr(s', v) in own' && own'[Ptr(s', v)] == v
    {
      assert v != u ==> Ptr(s', v) == Ptr(s, v);
    }
    forall q | q in own'
      ensures UseOk(s', own'[q]) && Ptr(s', own'[q]) == q
    {
      if q != p {
        assert Ptr(s, own[q]) == q;
      }
    }
  }

  lemma Unlink(s: Fs, s': Fs, sb: Super, own: map<int, Use>, u: Use)
    requires Linked(s, sb, own) && PtrPut(s, s', u, 0) && UseOk(s, u) && 0 < sb.data
    ensures Linked(s', sb, own - {Ptr(s, u)})
  {
    var own' := own - {Ptr(s, u)};
    forall v | UseOk(s', v) && Ptr(s', v) != 0
      ensures Ptr(s', v) in own' && own'[Ptr(s', v)] == v
    {
      assert v != u && Ptr(s', v) == Ptr(s, v);
      assert own[Ptr(s, v)] == v;
    }
    forall q | q in own'
      ensures UseOk(s', own'[q]) && Ptr(s', own'[q]) == q
    {
      assert Ptr(s, own[q]) == q;
    }
  }

  /** Recording a direct block, or the indirect block. */
  function PutAddr(s: Fs, i: nat, k: nat, p: int): Fs
    requires i < |s.inodes| && k < |s.inodes[i].addrs|
  {
    s.(inodes := s.inodes[i := s.inodes[i].(addrs := s.inodes[i].addrs[k := p])])
  }

  lemma PutDirect(s: Fs, sb: Super, i: nat, k: nat, p: int)
    requires Shape(s, sb) && i < |s.inodes| && k < NDIRECT && |s.inodes[i].addrs| == NDIRECT + 1
    ensures Shape(PutAddr(s, i, k, p), sb) && PtrPut(s, PutAddr(s, i, k, p), Data(i, k), p)
  {
    var s' := PutAddr(s, i, k, p);
    forall v | UseOk(s, v)
      ensures Ptr(s', v) == if v == Data(i, k) then p else Ptr(s, v)
    {
      assert |s.inodes[v.ino].addrs| == NDIRECT + 1;
    }
  }

  /** A zeroed indirect block records nothing. */
  lemma PutIndirect(s: Fs, sb: Super, i: nat, p: int)
    requires Shape(s, sb) && i < |s.inodes| && |s.inodes[i].addrs| == NDIRECT + 1
    requires Addr(s, i, NDIRECT) == 0 && 0 < p < |s.blocks| && s.blocks[p] == Zero()
    ensures Shape(PutAddr(s, i, NDIRECT, p), sb) && PtrPut(s, PutAddr(s, i, NDIRECT, p), Indirect(i), p)
  {
    var s' := PutAddr(s, i, NDIRECT, p);
    forall v | UseOk(s, v)
      ensures Ptr(s', v) == if v == Indirect(i) then p else Ptr(s, v)
    {
      assert |s.inodes[v.ino].addrs| == NDIRECT + 1;
      if v.ino == i && v.Data? && v.k >= NDIRECT {
        ZeroWord(v.k - NDIRECT);
      }
    }
  }

  function PutEntry(s: Fs, ib: nat, j: nat, p: nat): Fs
    requires ib < |s.blocks| && |s.blocks[ib]| == BSIZE && j < NINDIRECT
  {
    s.(blocks := s.blocks[ib := PutWord(s.blocks[ib], j, p)])
  }

  /** Writing an entry of an indirect block changes that entry alone. */
  lemma PutWordPtr(s: Fs, sb: Super, own: map<int, Use>, i: nat, j: nat, p: nat)
    requires Shape(s, sb) && Linked(s, sb, own) && i < |s.inodes| && j < NINDIRECT
    requires var ib := Addr(s, i, NDIRECT); 0 < ib < |s.blocks| && |s.blocks[ib]| == BSIZE
    ensures var s' := PutEntry(s, Addr(s, i, NDIRECT), j, p);
            Shape(s', sb) && PtrPut(s, s', Data(i, NDIRECT + j), p)
  {
    var ib := Addr(s, i, NDIRECT);
    var s' := PutEntry(s, ib, j, p);
    assert Ptr(s, Indirect(i)) == ib;
    forall v | UseOk(s, v)
      ensures Ptr(s', v) == if v == Data(i, NDIRECT + j) then p else Ptr(s, v)
    {
      if v.Data? && v.k >= NDIRECT {
        assert Ptr(s, Indirect(v.ino)) == Addr(s, v.ino, NDIRECT);
        if v.ino == i {
          PutGetWord(s.blocks[ib], j, p, v.k - NDIRECT);
        }
      }
    }
  }

  /** Changing blocks that are no indirect block changes no record. */
  lemma SamePtrs(s: Fs, sb: Super, own: map<int, Use>, blocks: seq<Block>, v: Use)
    requires Shape(s, sb) && Linked(s, sb, own) && |blocks| == |s.blocks| && UseOk(s, v)
    requires forall b {:trigger own[b]} | b in own && own[b].Indirect? :: blocks[b] == s.blocks[b]
    ensures Ptr(s.(blocks := blocks), v) == Ptr(s, v)
  {
    if v.Data? && v.k >= NDIRECT {
      assert Ptr(s, Indirect(v.ino)) == Addr(s, v.ino, NDIRECT);
    }
  }

  // ---- Allocation seen from the files

  /** Every file's blocks read as before. */
  ghost predicate SameFile(s: Fs, s': Fs) {
    && |s'.inodes| == |s.inodes|
    && forall i, k {:trigger FileBlock(s', i, k)} | 0 <= i < |s.inodes| && 0 <= k < MAXFILE ::
         FileBlock(s', i, k) == FileBlock(s, i, k)
  }

  ghost predicate SameSizes(s: Fs, s': Fs) {
    && |s'.inodes| == |s.inodes|
    && forall i {:trigger s'.inodes[i]} | 0 <= i < |s.inodes| :: s'.inodes[i].size == s.inodes[i].size
  }

  /** No data block but r has changed. */
  ghost predicate OnlyAt(blocks: seq<Block>, blocks': seq<Block>, sb: Super, r: int) {
    && |blocks'| == |blocks|
    && forall b {:trigger blocks'[b]} | sb.data <= b < |blocks| && b != r :: blocks'[b] == blocks[b]
  }

  /** Changing an unowned block, or the free map, changes no record and no file. */
  lemma Unowned(s: Fs, sb: Super, own: map<int, Use>, blocks: seq<Block>, r: int)
    requires Shape(s, sb) && Linked(s, sb, own) && OnlyAt(s.blocks, blocks, sb, r) && r !in own
    ensures var s' := s.(blocks := blocks);
            && Linked(s', sb, own) && SameFile(s, s')
            && forall v {:trigger Ptr(s', v)} | UseOk(s, v) :: Ptr(s', v) == Ptr(s, v)
  {
    var s' := s.(blocks := blocks);
    forall v | UseOk(s, v)
      ensures Ptr(s', v) == Ptr(s, v)
    {
      SamePtrs(s, sb, own, blocks, v);
    }
    forall p | p in own
      ensures UseOk(s', own[p]) && Ptr(s', own[p]) == p
    {
      assert Ptr(s, own[p]) == p;
    }
    forall i, k | 0 <= i < |s.inodes| && 0 <= k < MAXFILE
      ensures FileBlock(s', i, k) == FileBlock(s, i, k)
    {
      assert Ptr(s', Data(i, k)) == Ptr(s, Data(i, k));
    }
  }

  /** Recording a zeroed block where there was none changes no file. */
  lemma NewIsZero(s: Fs, s': Fs, sb: Super, own: map<int, Use>, u: Use, p: int)
    requires Shape(s, sb) && Linked(s, sb, own) && PtrPut(s, s', u, p) && UseOk(s, u) && Ptr(s, u) == 0
    requires 0 < sb.data <= p < sb.size && p !in own && |s'.blocks| == |s.blocks| && s'.blocks[p] == Zero()
    requires forall b {:trigger s'.blocks[b]} | b in own && own[b].Data? :: s'.blocks[b] == s.blocks[b]
    ensures SameFile(s, s')
  {
    forall i, k | 0 <= i < |s.inodes| && 0 <= k < MAXFILE
      ensures FileBlock(s', i, k) == FileBlock(s, i, k)
    {
      var q := Ptr(s, Data(i, k));
      assert Ptr(s', Data(i, k)) == if Data(i, k) == u then p else q;
      if q != 0 {
        assert own[q] == Data(i, k);
      }
    }
  }

  // ---- The free map and the space left

  /** Data blocks that nothing owns. */
  ghost function Space(sb: Super, own: map<int, Use>): int { sb.size - sb.data - |own| }

  ghost predicate InData(sb: Super, keys: set<int>) { forall p | p in keys :: sb.data <= p < sb.size }

  ghost function Range(lo: nat, hi: nat): (r: set<int>)
    requires lo <= hi
    ensures (forall x: int :: x in r <==> lo <= x < hi) && |r| == hi - lo
  {
    if lo == hi then {} else Range(lo, hi - 1) + {hi - 1}
  }

  /** There is no room exactly when every data block is owned. */
  lemma Full(sb: Super, own: map<int, Use>)
    requires sb.Ok() && InData(sb, own.Keys)
    ensures Space(sb, own) >= 0
    ensures Space(sb, own) == 0 <==> forall b: int | sb.data <= b < sb.size :: b in own
  {
    SubsetSize(own.Keys, Range(sb.data, sb.size));
    if forall b: int | sb.data <= b < sb.size :: b in own {
      assert own.Keys == Range(sb.data, sb.size);
    }
  }

  lemma BitsPut(blocks: seq<Block>, sb: Super, keys: set<int>, b: nat, on: bool)
    requires sb.Ok() && Bits(blocks, sb, keys) && sb.data <= b < sb.size && MapFits(blocks, sb.bmapstart, b)
    ensures Bits(MarkAt(blocks, sb.bmapstart, b, on), sb, if on then keys + {b} else keys - {b})
  {
    forall c: nat | c < sb.size
      ensures BitAt(MarkAt(blocks, sb.bmapstart, b, on), sb.bmapstart, c)
              <==> c < sb.data || c in if on then keys + {b} else keys - {b}
    {
      MarkBit(blocks, sb.bmapstart, b, on, c);
      assert BitAt(blocks, sb.bmapstart, c) <==> c < sb.data || c in keys;
    }
  }

  lemma MapBlock(sb: Super, b: nat)
    requires sb.Ok() && b < sb.size
    ensures sb.bmapstart <= sb.bmapstart + b / BPB <= sb.bmapstart + sb.size / BPB < sb.data
  {
    assert b / BPB <= sb.size / BPB;
  }

  /** Data blocks are apart from the free map. */
  lemma BitsApart(blocks: seq<Block>, sb: Super, keys: set<int>, p: nat, data: Block)
    requires sb.Ok() && Bits(blocks, sb, keys) && sb.data <= p < |blocks| && |data| == BSIZE == |blocks[p]|
    ensures Bits(blocks[p := data], sb, keys)
  {
    var blocks' := blocks[p := data];
    forall c: nat | c < sb.size
      ensures BitAt(blocks', sb.bmapstart, c) <==> c < sb.data || c in keys
    {
      MapBlock(sb, c);
      assert BitAt(blocks', sb.bmapstart, c) <==> BitAt(blocks, sb.bmapstart, c);
    }
  }

  /** Block 0 is apart from the free map, too. */
  lemma BitsBoot(blocks: seq<Block>, sb: Super, keys: set<int>, data: Block)
    requires sb.Ok() && Bits(blocks, sb, keys) && 0 < |blocks| && |data| == BSIZE == |blocks[0]|
    ensures Bits(blocks[0 := data], sb, keys)
  {
    var blocks' := blocks[0 := data];
    forall c: nat | c < sb.size
      ensures BitAt(blocks', sb.bmapstart, c) <==> c < sb.data || c in keys
    {
      assert BitAt(blocks', sb.bmapstart, c) <==> BitAt(blocks, sb.bmapstart, c);
    }
  }

  lemma Div8192(x: nat, q: nat, r: nat)
    requires x == 8192 * q + r && r < 8192
    ensures x / 8192 == q && x % 8192 == r
  {
  }

  lemma ScanIndex(b: nat, bi: nat)
    requires b % BPB == 0 && bi < BPB
    ensures (b + bi) / BPB == b / BPB && (b + bi) % BPB == bi && (b + bi) % 8 == bi % 8
  {
    var q := b / 8192;
    assert b + bi == 8192 * q + bi;
    Div8192(b + bi, q, bi);
    Div8(b + bi, 1024 * q + bi / 8, bi % 8);
  }

  /** Every block below n is marked. */
  ghost predicate AllSet(blocks: seq<Block>, sb: Super, n: nat) {
    forall c: nat {:trigger BitAt(blocks, sb.bmapstart, c)} | c < n && c < sb.size :: BitAt(blocks, sb.bmapstart, c)
  }

  /** Block r, the first with a clear bit, has been marked and zeroed. */
  ghost predicate Claimed(blocks: seq<Block>, blocks': seq<Block>, sb: Super, r: nat) {
    && r < sb.size == |blocks| && MapFits(blocks, sb.bmapstart, r)
    && !BitAt(blocks, sb.bmapstart, r) && AllSet(blocks, sb, r)
    && blocks' == MarkAt(blocks, sb.bmapstart, r, true)[r := Zero()]
  }

  lemma NoneClear(s: Fs, sb: Super, own: map<int, Use>)
    requires sb.Ok() && Linked(s, sb, own) && Bits(s.blocks, sb, own.Keys) && AllSet(s.blocks, sb, sb.size)
    ensures Space(sb, own) == 0
  {
    forall b: int | sb.data <= b < sb.size
      ensures b in own
    {
      assert BitAt(s.blocks, sb.bmapstart, b);
    }
    Full(sb, own);
  }

  /** A direct block recorded after allocation. */
  lemma AddDirect(s: Fs, sb: Super, own: map<int, Use>, i: nat, k: nat, p: int)
    requires Shape(s, sb) && Linked(s, sb, own) && i < |s.inodes| && k < NDIRECT && |s.inodes[i].addrs| == NDIRECT + 1
    requires Ptr(s, Data(i, k)) == 0 && p !in own && 0 < sb.data <= p < sb.size && s.blocks[p] == Zero()
    ensures var s' := PutAddr(s, i, k, p);
            && Shape(s', sb) && Linked(s', sb, own[p := Data(i, k)]) && SameFile(s, s') && PtrPut(s, s', Data(i, k), p)
            && SameSizes(s, s')
  {
    var s' := PutAddr(s, i, k, p);
    PutDirect(s, sb, i, k, p);
    LinkNew(s, s', sb, own, Data(i, k), p);
    NewIsZero(s, s', sb, own, Data(i, k), p);
  }

  lemma AddIndirect(s: Fs, sb: Super, own: map<int, Use>, i: nat, p: int)
    requires Shape(s, sb) && Linked(s, sb, own) && i < |s.inodes| && |s.inodes[i].addrs| == NDIRECT + 1
    requires Ptr(s, Indirect(i)) == 0 && p !in own && 0 < sb.data <= p < sb.size && s.blocks[p] == Zero()
    ensures var s' := PutAddr(s, i, NDIRECT, p);
            && Shape(s', sb) && Linked(s', sb, own[p := Indirect(i)]) && SameFile(s, s')
            && PtrPut(s, s', Indirect(i), p)
            && SameSizes(s, s')
  {
    var s' := PutAddr(s, i, NDIRECT, p);
    PutIndirect(s, sb, i, p);
    LinkNew(s, s', sb, own, Indirect(i), p);
    NewIsZero(s, s', sb, own, Indirect(i), p);
  }

  lemma AddEntry(s: Fs, sb: Super, own: map<int, Use>, i: nat, j: nat, p: nat)
    requires Shape(s, sb) && Linked(s, sb, own) && i < |s.inodes| && j < NINDIRECT && Ptr(s, Indirect(i)) != 0
    requires Ptr(s, Data(i, NDIRECT + j)) == 0 && p !in own && 0 < sb.data <= p < sb.size && s.blocks[p] == Zero()
    ensures var ib := Addr(s, i, NDIRECT);
            && ib in own && sb.data <= ib < |s.blocks| && |s.blocks[ib]| == BSIZE
            && var s' := PutEntry(s, ib, j, p);
               && Shape(s', sb) && Linked(s', sb, own[p := Data(i, NDIRECT + j)]) && SameFile(s, s')
               && PtrPut(s, s', Data(i, NDIRECT + j), p) && SameSizes(s, s')
  {
    var ib := Addr(s, i, NDIRECT);
    assert own[ib] == Indirect(i) by {
      assert Ptr(s, Indirect(i)) == ib;
    }
    var s' := PutEntry(s, ib, j, p);
    PutWordPtr(s, sb, own, i, j, p);
    LinkNew(s, s', sb, own, Data(i, NDIRECT + j), p);
    NewIsZero(s, s', sb, own, Data(i, NDIRECT + j), p);
  }

  // ---- Truncation

  /** The uses that go with an inode's indirect block. */
  predicate Tail(u: Use, i: nat) { u.ino == i && (u.Indirect? || u.k >= NDIRECT) }

  ghost function Without(own: map<int, Use>, i: nat): map<int, Use> {
    map p | p in own && !Tail(own[p], i) :: own[p]
  }

  /** The first j entries of an indirect block, those that are set. */
  ghost function Entries(b: Block, j: nat): set<int>
    requires |b| == BSIZE && j <= NINDIRECT
  {
    set t: nat | t < j && WordAt(b, t) != 0 :: WordAt(b, t)
  }

  /** Nothing about inodes other than ino has changed. */
  ghost predicate Untouched(s: Fs, s': Fs, ino: nat) {
    && |s'.inodes| == |s.inodes|
    && (forall j {:trigger s'.inodes[j]} | 0 <= j < |s.inodes| && j != ino :: s'.inodes[j] == s.inodes[j])
    && (forall j, k {:trigger FileBlock(s', j, k)} | 0 <= j < |s.inodes| && j != ino && 0 <= k < MAXFILE ::
         FileBlock(s', j, k) == FileBlock(s, j, k))
    && forall v {:trigger Ptr(s', v)} | UseOk(s, v) && v.ino != ino :: Ptr(s', v) == Ptr(s, v)
  }

  lemma UntouchedTrans(s: Fs, s1: Fs, s2: Fs, ino: nat)
    requires Untouched(s, s1, ino) && Untouched(s1, s2, ino)
    ensures Untouched(s, s2, ino)
  {
    forall j, k | 0 <= j < |s.inodes| && j != ino && 0 <= k < MAXFILE
      ensures FileBlock(s2, j, k) == FileBlock(s, j, k)
    {
      assert FileBlock(s1, j, k) == FileBlock(s, j, k);
    }
    forall v | UseOk(s, v) && v.ino != ino
      ensures Ptr(s2, v) == Ptr(s, v)
    {
      assert Ptr(s1, v) == Ptr(s, v);
    }
    assert forall j | 0 <= j < |s.inodes| && j != ino :: s1.inodes[j] == s.inodes[j];
  }

  /** Dropping a direct block. */
  lemma DropDirect(s: Fs, sb: Super, own: map<int, Use>, blocks: seq<Block>, i: nat, k: nat)
    requires Shape(s, sb) && Linked(s, sb, own) && i < |s.inodes| && k < NDIRECT && |s.inodes[i].addrs| == NDIRECT + 1
    requires OnlyAt(s.blocks, blocks, sb, 0) && Shape(s.(blocks := blocks), sb)
    ensures var s' := PutAddr(s.(blocks := blocks), i, k, 0);
            && Shape(s', sb) && Linked(s', sb, own - {Ptr(s, Data(i, k))}) && Untouched(s, s', i)
            && PtrPut(s, s', Data(i, k), 0)
  {
    assert 0 !in own;
    var s1 := s.(blocks := blocks);
    Unowned(s, sb, own, blocks, 0);
    var s' := PutAddr(s1, i, k, 0);
    PutDirect(s1, sb, i, k, 0);
    assert Ptr(s1, Data(i, k)) == Ptr(s, Data(i, k));
    Unlink(s1, s', sb, own, Data(i, k));
    forall v | UseOk(s, v)
      ensures Ptr(s', v) == if v == Data(i, k) then 0 else Ptr(s, v)
    {
      assert Ptr(s1, v) == Ptr(s, v);
    }
    forall j, l | 0 <= j < |s.inodes| && j != i && 0 <= l < MAXFILE
      ensures FileBlock(s', j, l) == FileBlock(s, j, l)
    {
      assert FileBlock(s1, j, l) == FileBlock(s, j, l);
      assert Ptr(s', Data(j, l)) == Ptr(s1, Data(j, l));
    }
  }

  /** Dropping the indirect block drops what it records. */
  lemma DropIndirect(s: Fs, sb: Super, own: map<int, Use>, blocks: seq<Block>, i: nat)
    requires Shape(s, sb) && Linked(s, sb, own) && i < |s.inodes| && |s.inodes[i].addrs| == NDIRECT + 1
    requires OnlyAt(s.blocks, blocks, sb, 0) && Shape(s.(blocks := blocks), sb)
    ensures var s' := PutAddr(s.(blocks := blocks), i, NDIRECT, 0);
            && Shape(s', sb) && Linked(s', sb, Without(own, i)) && Untouched(s, s', i)
            && forall v {:trigger Ptr(s', v)} | UseOk(s, v) :: Ptr(s', v) == if Tail(v, i) then 0 else Ptr(s, v)
  {
    assert 0 !in own;
    var s1 := s.(blocks := blocks);
    Unowned(s, sb, own, blocks, 0);
    var s', own' := PutAddr(s1, i, NDIRECT, 0), Without(own, i);
    forall v | UseOk(s, v)
      ensures Ptr(s', v) == if Tail(v, i) then 0 else Ptr(s, v)
    {
      assert Ptr(s1, v) == Ptr(s, v) && |s.inodes[v.ino].addrs| == NDIRECT + 1;
    }
    forall v | UseOk(s', v) && Ptr(s', v) != 0
      ensures Ptr(s', v) in own' && own'[Ptr(s', v)] == v
    {
      assert Ptr(s', v) == Ptr(s, v);
    }
    forall q | q in own'
      ensures UseOk(s', own'[q]) && Ptr(s', own'[q]) == q
    {
      assert Ptr(s, own[q]) == q;
    }
    forall j, l | 0 <= j < |s.inodes| && j != i && 0 <= l < MAXFILE
      ensures FileBlock(s', j, l) == FileBlock(s, j, l)
    {
      assert FileBlock(s1, j, l) == FileBlock(s, j, l);
      assert Ptr(s', Data(j, l)) == Ptr(s1, Data(j, l));
    }
  }

  /** What itrunc has freed when it drops the indirect block is what the block recorded, and the block. */
  lemma TailKeys(s: Fs, sb: Super, own: map<int, Use>, i: nat)
    requires Shape(s, sb) && Linked(s, sb, own) && i < |s.inodes| && Ptr(s, Indirect(i)) != 0
    ensures var ib := Ptr(s, Indirect(i));
            && 0 < ib < |s.blocks| && |s.blocks[ib]| == BSIZE
            && Without(own, i).Keys == own.Keys - Entries(s.blocks[ib], NINDIRECT) - {ib}
  {
    var ib := Ptr(s, Indirect(i));
    assert own[ib] == Indirect(i);
    var b := s.blocks[ib];
    forall p | p in own
      ensures Tail(own[p], i) <==> p in Entries(b, NINDIRECT) || p == ib
    {
      assert Ptr(s, own[p]) == p;
      if own[p].Data? && own[p].ino == i && own[p].k >= NDIRECT {
        assert p == WordAt(b, own[p].k - NDIRECT);
      }
      if p in Entries(b, NINDIRECT) {
        var t: nat :| t < NINDIRECT && WordAt(b, t) != 0 && WordAt(b, t) == p;
        assert Ptr(s, Data(i, NDIRECT + t)) == p;
      }
    }
  }

  /** The next entry of the indirect block has not been freed yet. */
  lemma NextEntry(s: Fs, sb: Super, own: map<int, Use>, i: nat, j: nat)
    requires Shape(s, sb) && Linked(s, sb, own) && i < |s.inodes| && Ptr(s, Indirect(i)) != 0 && j < NINDIRECT
    ensures var ib := Ptr(s, Indirect(i));
            && sb.data <= ib < |s.blocks| && |s.blocks[ib]| == BSIZE
            && ib in own.Keys - Entries(s.blocks[ib], NINDIRECT)
            && var w := WordAt(s.blocks[ib], j);
               && (w != 0 ==> sb.data <= w < sb.size && w in own.Keys - Entries(s.blocks[ib], j))
               && Entries(s.blocks[ib], j + 1) == Entries(s.blocks[ib], j) + (if w != 0 then {w} else {})
  {
    var ib := Ptr(s, Indirect(i));
    assert own[ib] == Indirect(i);
    var b := s.blocks[ib];
    forall t: nat | t < NINDIRECT
      ensures WordAt(b, t) != 0 ==> WordAt(b, t) in own && own[WordAt(b, t)] == Data(i, NDIRECT + t)
    {
      assert Ptr(s, Data(i, NDIRECT + t)) == WordAt(b, t);
    }
  }

  // ---- Files as bytes

  /** Byte x of inode i; zero where nothing is allocated. */
  function At(s: Fs, i: nat, x: nat): int {
    var b := FileBlock(s, i, x / BSIZE);
    if x % BSIZE < |b| then b[x % BSIZE] else 0
  }

  /** Block k of inode i is now `data`; other blocks of files, and all records, are as before. */
  ghost predicate Patched(s: Fs, s': Fs, i: nat, k: nat, data: Block) {
    && SameSizes(s, s')
    && (forall j, l {:trigger FileBlock(s', j, l)} | 0 <= j < |s.inodes| && 0 <= l < MAXFILE ::
          FileBlock(s', j, l) == if j == i && l == k then data else FileBlock(s, j, l))
    && forall v {:trigger Ptr(s', v)} | UseOk(s, v) :: Ptr(s', v) == Ptr(s, v)
  }

  lemma PatchFile(s: Fs, sb: Super, own: map<int, Use>, i: nat, k: nat, data: Block)
    requires Shape(s, sb) && Linked(s, sb, own) && i < |s.inodes| && k < MAXFILE && |data| == BSIZE
    requires Ptr(s, Data(i, k)) != 0
    ensures var p := Ptr(s, Data(i, k));
            && sb.data <= p < sb.size
            && var s' := s.(blocks := s.blocks[p := data]);
               Shape(s', sb) && Linked(s', sb, own) && Patched(s, s', i, k, data)
  {
    var p := Ptr(s, Data(i, k));
    assert own[p] == Data(i, k);
    var s' := s.(blocks := s.blocks[p := data]);
    forall v | UseOk(s, v)
      ensures Ptr(s', v) == Ptr(s, v)
    {
      SamePtrs(s, sb, own, s'.blocks, v);
    }
    forall q | q in own
      ensures UseOk(s', own[q]) && Ptr(s', own[q]) == q
    {
      assert Ptr(s, own[q]) == q;
    }
    forall j, l | 0 <= j < |s.inodes| && 0 <= l < MAXFILE
      ensures FileBlock(s', j, l) == if j == i && l == k then data else FileBlock(s, j, l)
    {
      assert Ptr(s', Data(j, l)) == Ptr(s, Data(j, l));
    }
  }

  /** Since s0, bytes off0..off of inode ino have become those of src; all other bytes of all files are as they were. */
  ghost predicate Wrote(s0: Fs, s: Fs, ino: nat, off0: nat, off: nat, src: seq<int>)
    requires off0 <= off <= off0 + |src|
  {
    && |s.inodes| == |s0.inodes|
    && forall i, x {:trigger At(s, i, x)} | 0 <= i < |s0.inodes| && 0 <= x < MAXFILE * BSIZE ::
         At(s, i, x) == if i == ino && off0 <= x < off then src[x - off0] else At(s0, i, x)
  }

  /** Since s0, bytes off0..off of inode ino have become those of src in the blocks that the file has;
      all other bytes of all files are as they were. */
  ghost predicate WroteThere(s0: Fs, s: Fs, ino: nat, off0: nat, off: nat, src: seq<int>)
    requires off0 <= off <= off0 + |src|
  {
    && |s.inodes| == |s0.inodes|
    && forall i, x {:trigger At(s, i, x)} | 0 <= i < |s0.inodes| && 0 <= x < MAXFILE * BSIZE ::
         At(s, i, x) == if i == ino && off0 <= x < off && Ptr(s, Data(ino, x / BSIZE)) != 0 then src[x - off0]
                        else At(s0, i, x)
  }

  /** Bytes off..off + m of inode ino have become those of src from t on. */
  ghost predicate BytesPut(s: Fs, s': Fs, ino: nat, off: nat, src: seq<int>, t: nat, m: nat)
    requires t + m <= |src|
  {
    && |s'.inodes| == |s.inodes|
    && forall i, x {:trigger At(s', i, x)} | 0 <= i < |s.inodes| && 0 <= x < MAXFILE * BSIZE ::
         At(s', i, x) == if i == ino && off <= x < off + m then src[t + (x - off)] else At(s, i, x)
  }

  lemma Euclid(x: nat, q: nat, r: nat)
    requires x == BSIZE * q + r && r < BSIZE
    ensures x / BSIZE == q && x % BSIZE == r
  {
  }

  lemma SameBlock(off: nat, x: nat, m: nat)
    requires off % BSIZE + m <= BSIZE
    ensures off <= x < off + m <==> x / BSIZE == off / BSIZE && off % BSIZE <= x % BSIZE < off % BSIZE + m
    ensures x / BSIZE == off / BSIZE ==> x - off == x % BSIZE - off % BSIZE
  {
    var q, o := off / BSIZE, off % BSIZE;
    assert off == BSIZE * q + o;
    if off <= x < off + m {
      assert x == BSIZE * q + (o + (x - off)) && 0 <= o + (x - off) < BSIZE;
      Euclid(x, q, o + (x - off));
    }
  }

  lemma PatchAt(s: Fs, s': Fs, ino: nat, off: nat, src: seq<int>, t: nat, m: nat, i: nat, x: nat)
    requires t + m <= |src| && off % BSIZE + m <= BSIZE && i < |s.inodes| && off < MAXFILE * BSIZE
    requires x < MAXFILE * BSIZE
    requires |FileBlock(s, ino, off / BSIZE)| == BSIZE
    requires Patched(s, s', ino, off / BSIZE, Patch(FileBlock(s, ino, off / BSIZE), off % BSIZE, src, t, m))
    ensures At(s', i, x) == if i == ino && off <= x < off + m then src[t + (x - off)] else At(s, i, x)
  {
    SameBlock(off, x, m);
    assert FileBlock(s', i, x / BSIZE) == if i == ino && x / BSIZE == off / BSIZE then
                                            Patch(FileBlock(s, ino, off / BSIZE), off % BSIZE, src, t, m)
                                          else FileBlock(s, i, x / BSIZE);
  }

  lemma PatchPuts(s: Fs, s': Fs, ino: nat, off: nat, src: seq<int>, t: nat, m: nat)
    requires t + m <= |src| && off % BSIZE + m <= BSIZE && ino < |s.inodes| && off < MAXFILE * BSIZE
    requires |FileBlock(s, ino, off / BSIZE)| == BSIZE
    requires Patched(s, s', ino, off / BSIZE, Patch(FileBlock(s, ino, off / BSIZE), off % BSIZE, src, t, m))
    ensures BytesPut(s, s', ino, off, src, t, m)
  {
    forall i, x | 0 <= i < |s.inodes| && 0 <= x < MAXFILE * BSIZE
      ensures At(s', i, x) == if i == ino && off <= x < off + m then src[t + (x - off)] else At(s, i, x)
    {
      PatchAt(s, s', ino, off, src, t, m, i, x);
    }
  }

  lemma PutAfterSame(s: Fs, s1: Fs, s2: Fs, ino: nat, off: nat, src: seq<int>, t: nat, m: nat)
    requires t + m <= |src| && SameFile(s, s1) && BytesPut(s1, s2, ino, off, src, t, m)
    ensures BytesPut(s, s2, ino, off, src, t, m)
  {
    forall i, x | 0 <= i < |s.inodes| && 0 <= x < MAXFILE * BSIZE
      ensures At(s2, i, x) == if i == ino && off <= x < off + m then src[t + (x - off)] else At(s, i, x)
    {
      assert FileBlock(s1, i, x / BSIZE) == FileBlock(s, i, x / BSIZE);
      assert At(s1, i, x) == At(s, i, x);
    }
  }

  // ---- Blocks a write needs

  /** Blocks k..hi of inode i that are not there. */
  ghost function Blanks(s: Fs, i: nat, k: nat, hi: nat): nat
    decreases hi - k
  {
    if k >= hi then 0 else (if Ptr(s, Data(i, k)) == 0 then 1 else 0) + Blanks(s, i, k + 1, hi)
  }

  /** Blocks to allocate before blocks k..hi of inode i are all there. */
  ghost function Need(s: Fs, i: nat, k: nat, hi: nat): nat {
    Blanks(s, i, k, hi) + if NDIRECT < hi && k < hi && Ptr(s, Indirect(i)) == 0 then 1 else 0
  }

  lemma {:induction false} BlanksSame(s: Fs, s': Fs, i: nat, k: nat, hi: nat)
    requires forall l: nat {:trigger Ptr(s', Data(i, l))} | k <= l < hi :: Ptr(s', Data(i, l)) == Ptr(s, Data(i, l))
    ensures Blanks(s', i, k, hi) == Blanks(s, i, k, hi)
    decreases hi - k
  {
    if k < hi {
      BlanksSame(s, s', i, k + 1, hi);
    }
  }

  ghost predicate Records(s: Fs, s': Fs, i: nat, k: nat) {
    && |s'.inodes| == |s.inodes|
    && forall v {:trigger Ptr(s', v)} | UseOk(s, v) ::
         Ptr(s', v) == Ptr(s, v) || (Ptr(s, v) == 0 && (v == Data(i, k) || (v == Indirect(i) && k >= NDIRECT)))
  }

  /** Blocks still to be allocated before block k of inode i is there. */
  ghost function Cost(s: Fs, i: nat, k: nat): nat {
    (if Ptr(s, Data(i, k)) == 0 then 1 else 0) + (if k >= NDIRECT && Ptr(s, Indirect(i)) == 0 then 1 else 0)
  }

  /** What asking for block k costs is what is then no longer needed. */
  lemma NeedStep(s: Fs, s': Fs, i: nat, k: nat, hi: nat)
    requires Records(s, s', i, k) && i < |s.inodes| && k < hi <= MAXFILE
    ensures Need(s, i, k, hi) - Need(s', i, k, hi) == Cost(s, i, k) - Cost(s', i, k)
    ensures Ptr(s', Data(i, k)) != 0 ==> Need(s, i, k, hi) - Need(s', i, k + 1, hi) == Cost(s, i, k) - Cost(s', i, k)
    ensures Need(s', i, k, hi) >= Cost(s', i, k)
  {
    BlanksSame(s, s', i, k + 1, hi);
    assert Ptr(s', Indirect(i)) == Ptr(s, Indirect(i)) || k >= NDIRECT;
  }

  /** Bytes off..off + n of inode i. */
  function Slice(s: Fs, i: nat, off: nat, n: nat): (r: seq<int>)
    ensures |r| == n
  {
    seq(n, t requires 0 <= t < n => At(s, i, off + t))
  }

  lemma SliceAt(s: Fs, i: nat, off: nat, n: nat, t: nat)
    requires t < n
    ensures Slice(s, i, off, n)[t] == At(s, i, off + t)
  {
  }

  /** What a file holds. */
  function Contents(s: Fs, i: nat): seq<int>
    requires i < |s.inodes|
  {
    Slice(s, i, 0, s.inodes[i].size)
  }

  /** Files have no holes and no more than MAXFILE blocks. */
  ghost predicate Filled(s: Fs) {
    && (forall i {:trigger s.inodes[i]} | 0 <= i < |s.inodes| :: s.inodes[i].size <= MAXFILE * BSIZE)
    && forall i: nat, k: nat {:trigger Ptr(s, Data(i, k))} | i < |s.inodes| && k * BSIZE < s.inodes[i].size ::
         Ptr(s, Data(i, k)) != 0
  }

  ghost predicate SizesBut(s: Fs, s': Fs, ino: nat, size: nat) {
    && |s'.inodes| == |s.inodes|
    && forall i {:trigger s'.inodes[i]} | 0 <= i < |s.inodes| ::
         s'.inodes[i].size == if i == ino then size else s.inodes[i].size
  }

  /** A write is a splice of the file's contents; OthersKept: the other files keep theirs. */
  lemma Spliced(s: Fs, s': Fs, i: nat, off: nat, src: seq<int>)
    requires i < |s.inodes| && off <= s.inodes[i].size && off + |src| <= MAXFILE * BSIZE && Filled(s)
    requires Wrote(s, s', i, off, off + |src|, src)
    requires SizesBut(s, s', i, if off + |src| > s.inodes[i].size then off + |src| else s.inodes[i].size)
    ensures Contents(s', i) == Contents(s, i)[..off] + src
                               + if off + |src| < s.inodes[i].size then Contents(s, i)[off + |src|..] else []
  {
    assert s.inodes[i].size <= MAXFILE * BSIZE && s'.inodes[i].size <= MAXFILE * BSIZE;
    var old0 := Contents(s, i);
    var rest := if off + |src| < s.inodes[i].size then old0[off + |src|..] else [];
    var new1 := old0[..off] + src + rest;
    forall t: nat | t < |new1|
      ensures new1[t] == Contents(s', i)[t]
    {
      SliceAt(s', i, 0, s'.inodes[i].size, t);
      if t < s.inodes[i].size {
        SliceAt(s, i, 0, s.inodes[i].size, t);
      }
    }
  }

  lemma OthersKept(s: Fs, s': Fs, i: nat, off: nat, src: seq<int>, size: nat, j: nat)
    requires i < |s.inodes| && Filled(s) && Wrote(s, s', i, off, off + |src|, src) && SizesBut(s, s', i, size)
    requires j < |s.inodes| && j != i
    ensures Contents(s', j) == Contents(s, j)
  {
    assert s'.inodes[j].size == s.inodes[j].size <= MAXFILE * BSIZE;
    forall t: nat | t < s.inodes[j].size
      ensures Contents(s', j)[t] == Contents(s, j)[t]
    {
      SliceAt(s', j, 0, s.inodes[j].size, t);
      SliceAt(s, j, 0, s.inodes[j].size, t);
    }
  }

  /** Reading back what was written. */
  lemma WriteThenRead(s: Fs, s': Fs, i: nat, off: nat, src: seq<int>)
    requires i < |s.inodes| && off + |src| <= MAXFILE * BSIZE && Wrote(s, s', i, off, off + |src|, src)
    ensures Slice(s', i, off, |src|) == src
  {
    forall t: nat | t < |src|
      ensures Slice(s', i, off, |src|)[t] == src[t]
    {
      SliceAt(s', i, off, |src|, t);
    }
  }

  /** Beyond l0, log l1 holds only blocks of the free map and `extra`. */
  ghost predicate Logs(l0: set<int>, l1: set<int>, sb: Super, extra: set<int>) {
    forall x {:trigger x in l1} | x in l1 :: x in l0 || x in extra || sb.bmapstart <= x <= sb.bmapstart + sb.size / BPB
  }

  /** From log l0 and state s to log l and state s', every block that has changed has been logged, and no inode but i
      has changed; closed until Open unfolds it. */
  ghost predicate Covered(s: Fs, l: set<int>, s': Fs, l': set<int>, i: nat) {
    forall x {:trigger Open(x)} | Open(x) ::
      && l <= l' && |s'.blocks| == |s.blocks| && |s'.inodes| == |s.inodes|
      && (forall b {:trigger s'.blocks[b]} | 0 <= b < |s.blocks| && s'.blocks[b] != s.blocks[b] :: b in l')
      && (forall j {:trigger s'.inodes[j]} | 0 <= j < |s.inodes| && j != i :: s'.inodes[j] == s.inodes[j])
  }

  lemma CoveredSame(s: Fs, l: set<int>, i: nat)
    ensures Covered(s, l, s, l, i)
  {
  }

  lemma CoveredTrans(s: Fs, l: set<int>, s1: Fs, l1: set<int>, s2: Fs, l2: set<int>, i: nat)
    requires Covered(s, l, s1, l1, i) && Covered(s1, l1, s2, l2, i)
    ensures Covered(s, l, s2, l2, i)
  {
    assert Open(0);
    forall b | 0 <= b < |s.blocks| && s2.blocks[b] != s.blocks[b]
      ensures b in l2
    {
      assert s1.blocks[b] != s.blocks[b] || s2.blocks[b] != s1.blocks[b];
    }
    forall j | 0 <= j < |s.inodes| && j != i
      ensures s2.inodes[j] == s.inodes[j]
    {
      assert s1.inodes[j] == s.inodes[j];
    }
  }

  /** A change to one block, and its log_write. */
  lemma CoveredBlock(s: Fs, l: set<int>, s1: Fs, l1: set<int>, b: nat, data: Block, i: nat)
    requires Covered(s, l, s1, l1, i) && b < |s1.blocks|
    ensures Covered(s, l, s1.(blocks := s1.blocks[b := data]), l1 + {b as int}, i)
  {
    assert Open(0);
    forall c | 0 <= c < |s.blocks| && s1.blocks[b := data][c] != s.blocks[c]
      ensures c in l1 + {b as int}
    {
      assert c == b || s1.blocks[c] != s.blocks[c];
    }
  }

  /** A change to the inode itself, or nothing but a log_write. */
  lemma CoveredInode(s: Fs, l: set<int>, s1: Fs, l1: set<int>, s2: Fs, l2: set<int>, i: nat)
    requires Covered(s, l, s1, l1, i) && l1 <= l2 && s2.blocks == s1.blocks && |s2.inodes| == |s1.inodes|
    requires forall j | 0 <= j < |s1.inodes| && j != i :: s2.inodes[j] == s1.inodes[j]
    ensures Covered(s, l, s2, l2, i)
  {
    assert Open(0);
    forall b | 0 <= b < |s.blocks| && s2.blocks[b] != s.blocks[b]
      ensures b in l2
    {
      assert s1.blocks[b] != s.blocks[b];
    }
    forall j | 0 <= j < |s.inodes| && j != i
      ensures s2.inodes[j] == s.inodes[j]
    {
      assert s1.inodes[j] == s.inodes[j];
    }
  }

  ghost function Touched(s: Fs, i: nat, lo: nat, hi: nat): set<int> {
    (set l: nat | lo <= l < hi :: Ptr(s, Data(i, l))) + if lo < hi && NDIRECT < hi then {Ptr(s, Indirect(i))} else {}
  }

  lemma {:induction false} TouchedSize(s: Fs, i: nat, lo: nat, hi: nat)
    requires lo <= hi
    ensures |set l: nat | lo <= l < hi :: Ptr(s, Data(i, l))| <= hi - lo
    ensures |Touched(s, i, lo, hi)| <= hi - lo + 1
    decreases hi - lo
  {
    if lo < hi {
      TouchedSize(s, i, lo, hi - 1);
      assert (set l: nat | lo <= l < hi :: Ptr(s, Data(i, l)))
             == (set l: nat | lo <= l < hi - 1 :: Ptr(s, Data(i, l))) + {Ptr(s, Data(i, hi - 1))};
    }
  }

  /** Blocks once recorded stay recorded, and no inode but ino gets any. */
  ghost predicate Keeps(s: Fs, s': Fs, ino: nat) {
    && |s'.inodes| == |s.inodes|
    && forall v {:trigger Ptr(s', v)} | UseOk(s, v) && (v.ino != ino || Ptr(s, v) != 0) :: Ptr(s', v) == Ptr(s, v)
  }

  ghost predicate There(s: Fs, i: nat, lo: nat, hi: nat) {
    forall l: nat {:trigger Ptr(s, Data(i, l))} | lo <= l < hi :: Ptr(s, Data(i, l)) != 0
  }

  function PutSize(s: Fs, i: nat, size: nat): Fs
    requires i < |s.inodes|
  {
    s.(inodes := s.inodes[i := s.inodes[i].(size := size)])
  }

  /** An inode's size is not part of what its records or bytes are. */
  lemma SizeApart(s: Fs, sb: Super, own: map<int, Use>, i: nat, size: nat)
    requires Shape(s, sb) && Linked(s, sb, own) && i < |s.inodes|
    ensures var s' := PutSize(s, i, size);
            Shape(s', sb) && Linked(s', sb, own) && SameFile(s, s')
              && forall v {:trigger Ptr(s', v)} :: Ptr(s', v) == Ptr(s, v)
  {
    var s' := PutSize(s, i, size);
    forall v
      ensures Ptr(s', v) == Ptr(s, v)
    {
    }
    forall q | q in own
      ensures UseOk(s', own[q]) && Ptr(s', own[q]) == q
    {
      assert Ptr(s, own[q]) == q;
    }
  }

  /** The block after the last one that n bytes from off on reach. */
  function EndBlock(off: nat, n: nat): nat { if n == 0 then off / BSIZE else (off + n - 1) / BSIZE + 1 }

  /** The same, or the end of the largest file if that comes first. */
  function EndInFile(off: nat, n: nat): nat { if off + n <= MAXFILE * BSIZE then EndBlock(off, n) else MAXFILE }

  /** How much of a block a round handles: up to its end or what is left. */
  function Chunk(off: nat, left: nat): (m: nat)
    ensures m <= left && off % BSIZE + m <= BSIZE && (left > 0 ==> m > 0)
  {
    if left < BSIZE - off % BSIZE then left else BSIZE - off % BSIZE
  }

  lemma NextBlock(off0: nat, off: nat, n: nat)
    requires off0 <= off < off0 + n
    ensures off / BSIZE < EndBlock(off0, n)
    ensures var m := Chunk(off, off0 + n - off);
            if off + m < off0 + n then (off + m) / BSIZE == off / BSIZE + 1 else off / BSIZE + 1 == EndBlock(off0, n)
  {
    var q, o := off / BSIZE, off % BSIZE;
    var m := Chunk(off, off0 + n - off);
    assert off == BSIZE * q + o;
    if off + m < off0 + n {
      Euclid(off + m, q + 1, 0);
    } else {
      Euclid(off0 + n - 1, q, o + m - 1);
    }
  }

  lemma FileFits(off: nat, n: nat)
    requires off + n <= MAXFILE * BSIZE
    ensures EndBlock(off, n) <= MAXFILE
  {
  }

  function NoAddrs(): (a: seq<int>)
    ensures |a| == NDIRECT + 1 && forall k | 0 <= k < |a| :: a[k] == 0
  {
    seq(NDIRECT + 1, _ => 0)
  }

  lemma NoTail(s: Fs, sb: Super, own: map<int, Use>, i: nat)
    requires Shape(s, sb) && Linked(s, sb, own) && i < |s.inodes| && Ptr(s, Indirect(i)) == 0
    ensures Without(own, i) == own && forall v {:trigger Ptr(s, v)} | UseOk(s, v) && Tail(v, i) :: Ptr(s, v) == 0
  {
    assert 0 !in own;
    forall p | p in own
      ensures !Tail(own[p], i)
    {
      assert Ptr(s, own[p]) == p;
    }
  }

  /** Once an inode records nothing, only the other inodes own blocks. */
  lemma Emptied(s0: Fs, own0: map<int, Use>, s3: Fs, s: Fs, own: map<int, Use>, sb: Super, ino: nat)
    requires Linked(s0, sb, own0) && Untouched(s0, s3, ino) && ino < |s0.inodes| && Shape(s3, sb) && Linked(s3, sb, own)
    requires s == PutSize(s3, ino, 0) && SameFile(s3, s) && forall v {:trigger Ptr(s, v)} :: Ptr(s, v) == Ptr(s3, v)
    requires forall v {:trigger Ptr(s3, v)} | UseOk(s3, v) && v.ino == ino :: Ptr(s3, v) == 0
    ensures Untouched(s0, s, ino) && (Filled(s0) ==> Filled(s))
    ensures own == map p | p in own0 && own0[p].ino != ino :: own0[p]
  {
    assert 0 !in own && 0 !in own0;
    forall p | p in own
      ensures p in own0 && own0[p] == own[p] && own[p].ino != ino
    {
      assert Ptr(s3, own[p]) == p && Ptr(s0, own[p]) == p;
    }
    forall p | p in own0 && own0[p].ino != ino
      ensures p in own
    {
      assert Ptr(s0, own0[p]) == p && Ptr(s3, own0[p]) == p;
    }
  }

  const MAXCHUNK: nat := 3072

  lemma KeepsTrans(s: Fs, s1: Fs, s2: Fs, ino: nat)
    requires Keeps(s, s1, ino) && Keeps(s1, s2, ino)
    ensures Keeps(s, s2, ino)
  {
    forall v | UseOk(s, v) && (v.ino != ino || Ptr(s, v) != 0)
      ensures Ptr(s2, v) == Ptr(s, v)
    {
      assert Ptr(s1, v) == Ptr(s, v);
    }
  }

  lemma ChunkSpan(off: nat, n: nat)
    requires 0 < n <= MAXCHUNK
    ensures off / BSIZE <= EndBlock(off, n) <= off / BSIZE + 4
  {
    var q, o := off / 1024, off % 1024;
    assert off + n - 1 == 1024 * q + (o + n - 1) && o + n - 1 < 4096;
    assert q <= (off + n - 1) / 1024 <= q + 3;
  }

  /** Inodes per block. */
  const IPB: nat := 16

  /** Block k of inode i was asked for: files read as before, records stay, and only this one's are new. */
  ghost predicate Mapped(s: Fs, s': Fs, i: nat, k: nat) {
    SameFile(s, s') && SameSizes(s, s') && Records(s, s', i, k)
  }

  lemma PatchRecords(s: Fs, s1: Fs, s2: Fs, i: nat, k: nat, data: Block)
    requires Mapped(s, s1, i, k) && Patched(s1, s2, i, k, data) && i < |s.inodes| && k < MAXFILE
    ensures Records(s, s2, i, k) && SameSizes(s, s2)
    ensures Ptr(s2, Data(i, k)) == Ptr(s1, Data(i, k)) && Ptr(s2, Indirect(i)) == Ptr(s1, Indirect(i))
  {
    assert Ptr(s2, Data(i, k)) == Ptr(s1, Data(i, k)) && Ptr(s2, Indirect(i)) == Ptr(s1, Indirect(i));
    forall v | UseOk(s, v)
      ensures Ptr(s2, v) == Ptr(s1, v)
    {
    }
  }

  /** A use got block r, by allocation if it had none; no other record and no file's bytes changed. */
  ghost predicate Added(s: Fs, s': Fs, u: Use, r: int, own: map<int, Use>, own': map<int, Use>, sb: Super) {
    && SameFile(s, s') && SameSizes(s, s') && PtrPut(s, s', u, r)
    && (Ptr(s, u) != 0 ==> r == Ptr(s, u) && s' == s && own' == own)
    && (Ptr(s, u) == 0 && r == 0 ==> Space(sb, own) == 0 && s' == s && own' == own)
    && (Ptr(s, u) == 0 && r != 0 ==> Space(sb, own) > 0 && Space(sb, own') == Space(sb, own) - 1)
  }

  /** bmap's answer r for block k of inode i: its block, or where a full disk leads. */
  ghost predicate Answered(s: Fs, own: map<int, Use>, s': Fs, own': map<int, Use>, sb: Super, i: nat, k: nat, r: int)
    requires 0 < |s'.blocks| && |s'.blocks[0]| == BSIZE && k < MAXFILE
  {
    && Mapped(s, s', i, k)
    && r == (if Ptr(s', Data(i, k)) != 0 then Ptr(s', Data(i, k)) else Stray(s', i, k))
    && (Ptr(s', Data(i, k)) == 0 ==> Space(sb, own') == 0)
    && Space(sb, own') - Cost(s', i, k) == Space(sb, own) - Cost(s, i, k)
    && (Ptr(s, Data(i, k)) != 0 || Space(sb, own) == 0 ==> s' == s && own' == own)
  }

  lemma AnsweredNear(s: Fs, own: map<int, Use>, s': Fs, own': map<int, Use>, sb: Super, i: nat, k: nat, r: int)
    requires Added(s, s', Data(i, k), r, own, own', sb) && k < NDIRECT && i < |s.inodes|
    requires 0 < |s'.blocks| && |s'.blocks[0]| == BSIZE
    ensures Answered(s, own, s', own', sb, i, k, r)
  {
  }

  /** If the file has all the blocks, all of src is in. */
  lemma WroteAll(s0: Fs, s: Fs, ino: nat, off0: nat, src: seq<int>)
    requires WroteThere(s0, s, ino, off0, off0 + |src|, src) && There(s, ino, off0 / BSIZE, EndBlock(off0, |src|))
    ensures Wrote(s0, s, ino, off0, off0 + |src|, src)
  {
    forall i, x | 0 <= i < |s0.inodes| && 0 <= x < MAXFILE * BSIZE
      ensures At(s, i, x) == if i == ino && off0 <= x < off0 + |src| then src[x - off0] else At(s0, i, x)
    {
      if i == ino && off0 <= x < off0 + |src| {
        assert off0 / BSIZE <= x / BSIZE < EndBlock(off0, |src|);
        assert Ptr(s, Data(ino, x / BSIZE)) != 0;
      }
    }
  }

  lemma WroteStart(s: Fs, ino: nat, off: nat, src: seq<int>)
    ensures WroteThere(s, s, ino, off, off, src)
  {
  }

  /** What a write has reached so far lies in earlier blocks. */
  lemma Earlier(off0: nat, off: nat, x: nat)
    requires off0 <= x < off && (off == off0 || off % BSIZE == 0)
    ensures x / BSIZE < off / BSIZE
  {
    assert off == BSIZE * (off / BSIZE) && x == BSIZE * (x / BSIZE) + x % BSIZE;
  }

  /** One more block that the file has. */
  lemma WroteMore(s0: Fs, s: Fs, s': Fs, ino: nat, off0: nat, tot: nat, off: nat, src: seq<int>, k: nat, m: nat,
                  off': nat)
    requires off == off0 + tot && off' == off + m <= off0 + |src| && (off == off0 || off % BSIZE == 0)
    requires k == off / BSIZE
    requires off % BSIZE + m <= BSIZE && ino < |s0.inodes| && off' <= MAXFILE * BSIZE
    requires WroteThere(s0, s, ino, off0, off, src) && BytesPut(s, s', ino, off, src, tot, m)
    requires Records(s, s', ino, k) && Ptr(s', Data(ino, k)) != 0
    ensures WroteThere(s0, s', ino, off0, off', src)
  {
    forall i, x | 0 <= i < |s0.inodes| && 0 <= x < MAXFILE * BSIZE
      ensures At(s', i, x) == if i == ino && off0 <= x < off' && Ptr(s', Data(ino, x / BSIZE)) != 0 then src[x - off0]
                              else At(s0, i, x)
    {
      assert At(s', i, x) == if i == ino && off <= x < off + m then src[tot + (x - off)] else At(s, i, x);
      SameBlock(off, x, m);
      if i == ino && off0 <= x < off {
        Earlier(off0, off, x);
        assert Ptr(s', Data(ino, x / BSIZE)) == Ptr(s, Data(ino, x / BSIZE));
      }
    }
  }

  /** One more block that the file has not: the file's bytes stay. */
  lemma WroteNot(s0: Fs, s: Fs, s': Fs, ino: nat, off0: nat, off: nat, src: seq<int>, k: nat, m: nat, off': nat)
    requires off0 <= off && off' == off + m <= off0 + |src| && (off == off0 || off % BSIZE == 0) && k == off / BSIZE
    requires off % BSIZE + m <= BSIZE && ino < |s0.inodes| && off' <= MAXFILE * BSIZE
    requires WroteThere(s0, s, ino, off0, off, src) && SameFile(s, s')
    requires Records(s, s', ino, k) && Ptr(s', Data(ino, k)) == 0
    ensures WroteThere(s0, s', ino, off0, off', src)
  {
    forall i, x | 0 <= i < |s0.inodes| && 0 <= x < MAXFILE * BSIZE
      ensures At(s', i, x) == if i == ino && off0 <= x < off' && Ptr(s', Data(ino, x / BSIZE)) != 0 then src[x - off0]
                              else At(s0, i, x)
    {
      assert FileBlock(s', i, x / BSIZE) == FileBlock(s, i, x / BSIZE);
      assert At(s', i, x) == At(s, i, x);
      SameBlock(off, x, m);
      if i == ino && off0 <= x < off {
        Earlier(off0, off, x);
        assert Ptr(s', Data(ino, x / BSIZE)) == Ptr(s, Data(ino, x / BSIZE));
      }
    }
  }

  lemma WroteSame(s0: Fs, s: Fs, s': Fs, ino: nat, off0: nat, off: nat, src: seq<int>)
    requires off0 <= off <= off0 + |src| && WroteThere(s0, s, ino, off0, off, src) && SameFile(s, s')
    requires ino < |s0.inodes|
    requires forall v {:trigger Ptr(s', v)} :: Ptr(s', v) == Ptr(s, v)
    ensures WroteThere(s0, s', ino, off0, off, src)
  {
    forall i, x | 0 <= i < |s0.inodes| && 0 <= x < MAXFILE * BSIZE
      ensures At(s', i, x) == if i == ino && off0 <= x < off && Ptr(s', Data(ino, x / BSIZE)) != 0 then src[x - off0]
                              else At(s0, i, x)
    {
      assert FileBlock(s', i, x / BSIZE) == FileBlock(s, i, x / BSIZE);
      assert At(s', i, x) == At(s, i, x);
      assert Ptr(s', Data(ino, x / BSIZE)) == Ptr(s, Data(ino, x / BSIZE));
    }
  }

  /** The same block numbers are recorded. */
  ghost predicate SameRecords(s: Fs, s': Fs) {
    |s'.inodes| == |s.inodes| && forall v {:trigger Ptr(s', v)} | UseOk(s, v) :: Ptr(s', v) == Ptr(s, v)
  }

  /** What a write from block lo of inode ino, now at block k on its way to hi, has done to the space
      left. As long as the file has all its blocks, what is still needed is what was needed less what was
      taken; once it lacks one, no block is free and too few were. */
  ghost predicate Spacing(s0: Fs, own0: map<int, Use>, s: Fs, own: map<int, Use>, sb: Super, ino: nat, lo: nat, k: nat,
                          hi: nat) {
    && (There(s, ino, lo, k) ==> Space(sb, own) - Need(s, ino, k, hi) == Space(sb, own0) - Need(s0, ino, lo, hi))
    && (!There(s, ino, lo, k) ==> Space(sb, own) == 0 && Space(sb, own0) < Need(s0, ino, lo, hi))
    && (Space(sb, own0) == 0 ==> Space(sb, own) == 0 && SameRecords(s0, s))
  }

  /** How far a write has come since s0: the bytes off0..off are in wherever the file has their block. */
  ghost predicate Progress(s0: Fs, own0: map<int, Use>, s: Fs, own: map<int, Use>, sb: Super,
                           ino: nat, off0: nat, off: nat, src: seq<int>, k: nat, hi: nat)
    requires off0 <= off <= off0 + |src|
  {
    && SameSizes(s0, s) && Keeps(s0, s, ino) && WroteThere(s0, s, ino, off0, off, src)
    && Spacing(s0, own0, s, own, sb, ino, off0 / BSIZE, k, hi)
  }

  /** The log of a write that has come from block lo to block k of inode i. */
  ghost predicate Logged(l0: set<int>, l: set<int>, sb: Super, s: Fs, i: nat, lo: nat, k: nat) {
    Logs(l0, l, sb, Touched(s, i, lo, k))
  }

  lemma ProgressStart(s: Fs, own: map<int, Use>, sb: Super, ino: nat, off: nat, src: seq<int>, k: nat, hi: nat,
                      l: set<int>)
    requires ino < |s.inodes| && k == off / BSIZE
    ensures Progress(s, own, s, own, sb, ino, off, off, src, k, hi)
    ensures Logged(l, l, sb, s, ino, off / BSIZE, k)
  {
    WroteStart(s, ino, off, src);
  }

  /** A round of a write at block k: the block is there and has its bytes, at the cost of what was
      missing, or it is not there because no block was left. */
  ghost predicate Round(s: Fs, own: map<int, Use>, s': Fs, own': map<int, Use>, sb: Super,
                        ino: nat, off: nat, src: seq<int>, t: nat, m: nat, k: nat)
    requires t + m <= |src|
  {
    && SameSizes(s, s') && Records(s, s', ino, k) && Space(sb, own') >= 0
    && (Space(sb, own) == 0 ==> Ptr(s', Indirect(ino)) == Ptr(s, Indirect(ino)))
    && if Ptr(s', Data(ino, k)) != 0 then
         BytesPut(s, s', ino, off, src, t, m) && Space(sb, own') == Space(sb, own) - Cost(s, ino, k)
       else
         SameFile(s, s') && Space(sb, own') == 0 && Space(sb, own) < Cost(s, ino, k)
  }

  lemma ThereNext(s: Fs, s': Fs, ino: nat, lo: nat, k: nat, k': nat)
    requires Records(s, s', ino, k) && ino < |s.inodes| && lo <= k < MAXFILE && k' == k + 1
    ensures There(s', ino, lo, k') <==> There(s, ino, lo, k) && Ptr(s', Data(ino, k)) != 0
  {
    forall l: nat | lo <= l < k
      ensures Ptr(s', Data(ino, l)) == Ptr(s, Data(ino, l))
    {
    }
    if !There(s, ino, lo, k) {
      var l: nat :| lo <= l < k && Ptr(s, Data(ino, l)) == 0;
      assert Ptr(s', Data(ino, l)) == 0;
    }
  }

  lemma NeedNext(s: Fs, own: map<int, Use>, s': Fs, own': map<int, Use>, sb: Super,
                 ino: nat, off: nat, src: seq<int>, t: nat, m: nat, k: nat, k': nat, hi: nat)
    requires t + m <= |src| && Round(s, own, s', own', sb, ino, off, src, t, m, k) && ino < |s.inodes|
    requires k < hi <= MAXFILE && k' == k + 1
    ensures if Ptr(s', Data(ino, k)) != 0 then
              Space(sb, own') - Need(s', ino, k', hi) == Space(sb, own) - Need(s, ino, k, hi)
            else Space(sb, own) < Need(s, ino, k, hi)
  {
    NeedStep(s, s', ino, k, hi);
    NeedStep(s, s, ino, k, hi);
  }

  lemma KeepsNext(s0: Fs, s: Fs, s': Fs, i: nat, k: nat)
    requires Keeps(s0, s, i) && Records(s, s', i, k)
    ensures Keeps(s0, s', i)
  {
    forall v | UseOk(s0, v) && (v.ino != i || Ptr(s0, v) != 0)
      ensures Ptr(s', v) == Ptr(s0, v)
    {
      assert Ptr(s, v) == Ptr(s0, v);
    }
  }

  /** With no block free, a round records nothing new. */
  lemma NothingLeft(s: Fs, own: map<int, Use>, s': Fs, own': map<int, Use>, sb: Super,
                    ino: nat, off: nat, src: seq<int>, t: nat, m: nat, k: nat)
    requires t + m <= |src| && Round(s, own, s', own', sb, ino, off, src, t, m, k) && Space(sb, own) == 0
    requires ino < |s.inodes| && k < MAXFILE
    ensures Space(sb, own') == 0 && SameRecords(s, s')
  {
    forall v | UseOk(s, v)
      ensures Ptr(s', v) == Ptr(s, v)
    {
      if v == Data(ino, k) && Ptr(s', v) != 0 {
        assert Cost(s, ino, k) == 0;
      }
    }
  }

  lemma SameRecordsTrans(s: Fs, s1: Fs, s2: Fs)
    requires SameRecords(s, s1) && SameRecords(s1, s2)
    ensures SameRecords(s, s2)
  {
    forall v | UseOk(s, v)
      ensures Ptr(s2, v) == Ptr(s, v)
    {
      assert Ptr(s1, v) == Ptr(s, v);
    }
  }

  lemma SameFileTrans(s: Fs, s1: Fs, s2: Fs)
    requires SameFile(s, s1) && SameFile(s1, s2)
    ensures SameFile(s, s2)
  {
    forall i, k | 0 <= i < |s.inodes| && 0 <= k < MAXFILE
      ensures FileBlock(s2, i, k) == FileBlock(s, i, k)
    {
      assert FileBlock(s1, i, k) == FileBlock(s, i, k);
    }
  }

  lemma AnsweredFar(s: Fs, own: map<int, Use>, s1: Fs, own1: map<int, Use>, s': Fs, own': map<int, Use>, sb: Super,
                    i: nat, k: nat, ib: int, r: int)
    requires Added(s, s1, Indirect(i), ib, own, own1, sb) && NDIRECT <= k < MAXFILE && i < |s.inodes|
    requires 0 < |s'.blocks| && |s'.blocks[0]| == BSIZE && Linked(s, sb, own) && Space(sb, own1) >= 0
    requires if ib != 0 then Added(s1, s', Data(i, k), r, own1, own', sb)
             else s' == s1 && own' == own1 && r == WordAt(s'.blocks[0], k - NDIRECT)
    ensures Answered(s, own, s', own', sb, i, k, r)
  {
    if ib != 0 {
      SameFileTrans(s, s1, s');
    }
  }

  /** bmap, and then a change that touches no record and no file. */
  lemma StrayRecords(s: Fs, s1: Fs, s2: Fs, i: nat, k: nat)
    requires Mapped(s, s1, i, k) && SameRecords(s1, s2) && SameFile(s1, s2) && SameSizes(s1, s2)
    ensures Mapped(s, s2, i, k)
  {
    SameFileTrans(s, s1, s2);
    forall v | UseOk(s, v)
      ensures Ptr(s2, v) == Ptr(s1, v)
    {
    }
  }

  /** A write that block 0 leads astray had too few blocks from the start, and no indirect block. */
  lemma GoesAstray(s0: Fs, own0: map<int, Use>, s: Fs, own: map<int, Use>, sb: Super,
                   ino: nat, off0: nat, off: nat, src: seq<int>, k: nat, hi: nat)
    requires off0 <= off <= off0 + |src| && ino < |s0.inodes| && k < hi <= MAXFILE
    requires Progress(s0, own0, s, own, sb, ino, off0, off, src, k, hi)
    requires Space(sb, own) < Cost(s, ino, k) && Ptr(s, Indirect(ino)) == 0
    ensures Space(sb, own0) < Need(s0, ino, off0 / BSIZE, hi) && Ptr(s0, Indirect(ino)) == 0
  {
    NeedStep(s, s, ino, k, hi);
  }

  lemma SpacingNext(s0: Fs, own0: map<int, Use>, s: Fs, own: map<int, Use>, s': Fs, own': map<int, Use>, sb: Super,
                    ino: nat, off: nat, src: seq<int>, t: nat, m: nat, lo: nat, k: nat, hi: nat, k': nat)
    requires t + m <= |src| && k' == k + 1 && ino < |s.inodes| && lo <= k < hi <= MAXFILE
    requires Spacing(s0, own0, s, own, sb, ino, lo, k, hi) && Round(s, own, s', own', sb, ino, off, src, t, m, k)
    ensures Spacing(s0, own0, s', own', sb, ino, lo, k', hi)
  {
    NeedNext(s, own, s', own', sb, ino, off, src, t, m, k, k', hi);
    ThereNext(s, s', ino, lo, k, k');
    if Space(sb, own) == 0 {
      NothingLeft(s, own, s', own', sb, ino, off, src, t, m, k);
    }
    if Space(sb, own0) == 0 {
      SameRecordsTrans(s0, s, s');
    }
  }

  lemma Progresses(s0: Fs, own0: map<int, Use>, s: Fs, own: map<int, Use>, s': Fs, own': map<int, Use>, sb: Super,
                   ino: nat, off0: nat, tot: nat, off: nat, src: seq<int>, k: nat, hi: nat, m: nat, off': nat, k': nat)
    requires off == off0 + tot && off' == off + m <= off0 + |src| && k' == k + 1 && ino < |s.inodes|
    requires k < hi <= MAXFILE
    requires (off == off0 || off % BSIZE == 0) && k == off / BSIZE && off % BSIZE + m <= BSIZE
    requires off' <= MAXFILE * BSIZE
    requires Progress(s0, own0, s, own, sb, ino, off0, off, src, k, hi)
    requires Round(s, own, s', own', sb, ino, off, src, tot, m, k)
    ensures Progress(s0, own0, s', own', sb, ino, off0, off', src, k', hi)
  {
    SpacingNext(s0, own0, s, own, s', own', sb, ino, off, src, tot, m, off0 / BSIZE, k, hi, k');
    KeepsNext(s0, s, s', ino, k);
    if Ptr(s', Data(ino, k)) != 0 {
      WroteMore(s0, s, s', ino, off0, tot, off, src, k, m, off');
    } else {
      WroteNot(s0, s, s', ino, off0, off, src, k, m, off');
    }
  }

  /** The blocks lo..hi that inode i has not. */
  ghost function Missing(s: Fs, i: nat, lo: nat, hi: nat): set<nat> {
    set l: nat | lo <= l < hi && Ptr(s, Data(i, l)) == 0
  }

  /** Block 0 after the first n bytes of src have been written from off on, those of the blocks `lost`
      to block 0. */
  ghost function Spill(b: Block, off: nat, n: nat, src: seq<int>, lost: set<nat>): (r: Block)
    requires |b| == BSIZE && n <= |src|
    ensures |r| == BSIZE
    decreases n
  {
    if n == 0 then b
    else
      var k := (off + n - 1) / BSIZE;
      var p := if off < k * BSIZE then k * BSIZE else off;
      var r := Spill(b, off, p - off, src, lost);
      if k in lost then Patch(r, p - k * BSIZE, src, p - off, off + n - p) else r
  }

  /** Later blocks do not matter. */
  lemma {:induction false} SpillLocal(b: Block, off: nat, n: nat, src: seq<int>, lost: set<nat>, k: nat)
    requires |b| == BSIZE && n <= |src| && (n > 0 ==> (off + n - 1) / BSIZE < k)
    ensures Spill(b, off, n, src, lost + {k}) == Spill(b, off, n, src, lost)
    decreases n
  {
    if n > 0 {
      var j := (off + n - 1) / BSIZE;
      var p := if off < j * BSIZE then j * BSIZE else off;
      if p > off {
        assert (p - 1) / BSIZE < k;
      }
      SpillLocal(b, off, p - off, src, lost, k);
    }
  }

  /** A write of n bytes from off0 on has come to byte tot, which is at off and in block k. */
  ghost predicate Place(off0: nat, tot: nat, n: nat, off: nat, k: nat) {
    && tot <= n && off == off0 + tot && off0 / BSIZE <= k
    && k == (if tot < n then off / BSIZE else EndBlock(off0, n))
    && (off == off0 || off % BSIZE == 0 || tot == n)
  }

  lemma NextPlace(off0: nat, tot: nat, n: nat, off: nat, k: nat)
    requires Place(off0, tot, n, off, k) && tot < n
    ensures var m := Chunk(off, n - tot);
            m > 0 && k < EndBlock(off0, n) && Place(off0, tot + m, n, off + m, k + 1)
  {
    NextBlock(off0, off, n);
    var o, m := off % BSIZE, Chunk(off, n - tot);
    assert off == BSIZE * k + o;
    if off + m < off0 + n {
      Euclid(off + m, k + 1, 0);
    }
  }

  lemma LastRound(off0: nat, off: nat, tot: nat, k: nat, m: nat, tot': nat)
    requires off == off0 + tot && 0 < m && tot' == tot + m && (off == off0 || off % BSIZE == 0)
    requires k == off / BSIZE && off % BSIZE + m <= BSIZE
    ensures (off0 + tot' - 1) / BSIZE == k && (if off0 < k * BSIZE then k * BSIZE else off0) == off
    ensures off - k * BSIZE == off % BSIZE && (tot > 0 ==> (off0 + tot - 1) / BSIZE < k)
  {
    var o := off % BSIZE;
    assert off == BSIZE * k + o;
    Euclid(off + m - 1, k, o + m - 1);
    if off > off0 {
      Earlier(off0, off, off - 1);
    }
  }

  lemma SpillUnfold(b: Block, off: nat, n: nat, src: seq<int>, lost: set<nat>, k: nat, p: nat, t: nat)
    requires |b| == BSIZE && 0 < n <= |src| && k == (off + n - 1) / BSIZE && off <= p < off + n && t == p - off
    requires p == (if off < k * BSIZE then k * BSIZE else off) && p - k * BSIZE == p % BSIZE
    ensures p % BSIZE + (n - t) <= BSIZE
    ensures var r := Spill(b, off, t, src, lost);
            Spill(b, off, n, src, lost) == if k in lost then Patch(r, p % BSIZE, src, t, n - t) else r
  {
  }

  lemma SpillNext(b: Block, off0: nat, off: nat, tot: nat, src: seq<int>, lost: set<nat>, k: nat, m: nat, missed: bool,
                  lost': set<nat>, tot': nat, r: Block, r': Block)
    requires |b| == BSIZE && off == off0 + tot && 0 < m && tot' == tot + m <= |src| && (off == off0 || off % BSIZE == 0)
    requires k == off / BSIZE && off % BSIZE + m <= BSIZE && k !in lost && lost' == if missed then lost + {k} else lost
    requires r == Spill(b, off0, tot, src, lost) && r' == if missed then Patch(r, off % BSIZE, src, tot, m) else r
    ensures r' == Spill(b, off0, tot', src, lost')
  {
    LastRound(off0, off, tot, k, m, tot');
    SpillUnfold(b, off0, tot', src, lost', k, off, tot);
    if missed {
      SpillLocal(b, off0, tot, src, lost, k);
    }
  }

  lemma MissingNext(s: Fs, s': Fs, ino: nat, lo: nat, k: nat, k': nat)
    requires Records(s, s', ino, k) && ino < |s.inodes| && lo <= k < MAXFILE && k' == k + 1
    ensures k !in Missing(s, ino, lo, k)
    ensures Missing(s', ino, lo, k') == if Ptr(s', Data(ino, k)) == 0 then Missing(s, ino, lo, k) + {k}
                                        else Missing(s, ino, lo, k)
  {
    forall l: nat | lo <= l < k
      ensures Ptr(s', Data(ino, l)) == Ptr(s, Data(ino, l))
    {
    }
  }

  /** What asking for block k of inode i, answered with block r, may log besides the free map. */
  ghost function Extra(s: Fs, i: nat, k: nat, r: int): set<int> {
    {r} + if k < NDIRECT then {} else {Addr(s, i, NDIRECT)}
  }

  lemma LogsMore(l0: set<int>, l1: set<int>, l2: set<int>, sb: Super, s: Fs, s': Fs, i: nat, lo: nat, k: nat, k': nat)
    requires k' == k + 1 && Logged(l0, l1, sb, s, i, lo, k) && Logs(l1, l2, sb, Extra(s', i, k, Ptr(s', Data(i, k))))
    requires lo <= k < MAXFILE && i < |s.inodes| && Records(s, s', i, k)
    requires lo < k && NDIRECT < k ==> Ptr(s', Indirect(i)) == Ptr(s, Indirect(i))
    ensures Logged(l0, l2, sb, s', i, lo, k')
  {
    assert Touched(s, i, lo, k) <= Touched(s', i, lo, k + 1) by {
      forall l: nat | lo <= l < k
        ensures Ptr(s', Data(i, l)) == Ptr(s, Data(i, l))
      {
      }
    }
    assert Extra(s', i, k, Ptr(s', Data(i, k))) <= Touched(s', i, lo, k + 1);
  }

  /** Past its first block beyond the direct ones, a write does not change which indirect block there is. */
  lemma IndirectStays(s: Fs, own: map<int, Use>, s': Fs, own': map<int, Use>, sb: Super, i: nat, lo: nat, k: nat)
    requires i < |s.inodes| && lo < k && NDIRECT < k < MAXFILE && Records(s, s', i, k)
    requires !There(s, i, lo, k) ==> Space(sb, own) == 0
    requires Space(sb, own) == 0 ==> Ptr(s', Indirect(i)) == Ptr(s, Indirect(i))
    ensures Ptr(s', Indirect(i)) == Ptr(s, Indirect(i))
  {
    if Ptr(s, Indirect(i)) == 0 {
      assert Ptr(s, Data(i, k - 1)) == 0;
    }
  }

  lemma StepLogged(s0: Fs, own0: map<int, Use>, s: Fs, own: map<int, Use>, s': Fs, own': map<int, Use>, sb: Super,
                   ino: nat, off0: nat, tot: nat, off: nat, src: seq<int>, k: nat, hi: nat, m: nat,
                   l0: set<int>, l1: set<int>, l2: set<int>, k': nat)
    requires off == off0 + tot && off + m <= off0 + |src| && k' == k + 1 && ino < |s.inodes|
    requires off0 / BSIZE <= k < hi <= MAXFILE
    requires Progress(s0, own0, s, own, sb, ino, off0, off, src, k, hi)
    requires Round(s, own, s', own', sb, ino, off, src, tot, m, k)
    requires Logged(l0, l1, sb, s, ino, off0 / BSIZE, k) && Logs(l1, l2, sb, Extra(s', ino, k, Ptr(s', Data(ino, k))))
    ensures Logged(l0, l2, sb, s', ino, off0 / BSIZE, k')
  {
    if off0 / BSIZE < k && NDIRECT < k {
      IndirectStays(s, own, s', own', sb, ino, off0 / BSIZE, k);
    }
    LogsMore(l0, l1, l2, sb, s, s', ino, off0 / BSIZE, k, k');
  }

  ghost predicate FewWith(l0: set<int>, l: set<int>, sb: Super, a: int, n: nat, t: set<int>) {
    |t| <= n && Logs(l0, l, sb, t + {0, a})
  }

  /** At most n blocks, besides those of l0 and of the free map, block 0 and block a. */
  ghost predicate Few(l0: set<int>, l: set<int>, sb: Super, a: int, n: nat) {
    exists t: set<int> :: FewWith(l0, l, sb, a, n, t)
  }

  lemma FewStart(l: set<int>, sb: Super, a: int)
    ensures Few(l, l, sb, a, 0)
  {
    var t: set<int> := {};
    assert FewWith(l, l, sb, a, 0, t);
  }

  lemma LogsJoin(l0: set<int>, l1: set<int>, l2: set<int>, sb: Super, t: set<int>, e: set<int>, t': set<int>)
    requires Logs(l0, l1, sb, t) && Logs(l1, l2, sb, e) && t <= t' && e <= t'
    ensures Logs(l0, l2, sb, t')
  {
  }

  lemma AddOne(s: set<int>, x: int)
    ensures |s + {x}| <= |s| + 1
  {
    if x in s {
      assert s + {x} == s;
    }
  }

  lemma FewMore(l0: set<int>, l1: set<int>, l2: set<int>, sb: Super, s': Fs, i: nat, k: nat, r: int, a: int, n: nat)
    requires Few(l0, l1, sb, a, n) && Logs(l1, l2, sb, Extra(s', i, k, r)) && (Addr(s', i, NDIRECT) == a || a == 0)
    ensures Few(l0, l2, sb, Addr(s', i, NDIRECT), n + 1)
  {
    var t :| FewWith(l0, l1, sb, a, n, t);
    var t', a' := t + {r}, Addr(s', i, NDIRECT);
    AddOne(t, r);
    LogsJoin(l0, l1, l2, sb, t + {0, a}, Extra(s', i, k, r), t' + {0, a'});
    assert FewWith(l0, l2, sb, a', n + 1, t');
  }

  /** The log of a whole writei: the file's blocks that it wrote, its indirect block, and the inode's block. */
  ghost predicate WriteLogged(l0: set<int>, l: set<int>, sb: Super, s: Fs, i: nat, off: nat, n: nat) {
    Logs(l0, l, sb, Touched(s, i, off / BSIZE, EndBlock(off, n)) + {sb.inodestart + i / IPB})
  }

  /** The log of any writei of n bytes, also one that block 0 leads astray. */
  ghost predicate FewLogged(l0: set<int>, l: set<int>, sb: Super, a: int, i: nat, off: nat, n: nat) {
    Few(l0, l - {sb.inodestart + i / IPB}, sb, a, EndBlock(off, n) - off / BSIZE)
  }

  /** With a single block of free map, a log holds that block at most, besides the others. */
  lemma OneMapBlock(l0: set<int>, l: set<int>, sb: Super, extra: set<int>)
    requires sb.size < BPB && l0 == {} && Logs(l0, l, sb, extra)
    ensures |l| <= |extra| + 1
  {
    assert sb.size / BPB == 0;
    var all := extra + {sb.bmapstart as int};
    forall x | x in l
      ensures x in all
    {
    }
    SubsetSize(l, all);
    AddOne(extra, sb.bmapstart);
  }

  /** A chunk logs four data blocks at most, the indirect block, one block of the free map and the inode's. */
  lemma SevenBlocks(s: Fs, sb: Super, ino: nat, off: nat, n: nat, l0: set<int>, l: set<int>)
    requires sb.size < BPB && 0 < n <= MAXCHUNK && l0 == {}
    requires WriteLogged(l0, l, sb, s, ino, off, n)
    ensures |l| <= MAXOPBLOCKS - 3
  {
    var lo, hi, inode := off / BSIZE, EndBlock(off, n), sb.inodestart + ino / IPB;
    ChunkSpan(off, n);
    TouchedSize(s, ino, lo, hi);
    var t := Touched(s, ino, lo, hi);
    AddOne(t, inode);
    OneMapBlock(l0, l, sb, t + {inode});
  }

  /** And never more than eight, wherever it writes. */
  lemma EightBlocks(sb: Super, a: int, ino: nat, off: nat, n: nat, l0: set<int>, l: set<int>)
    requires sb.size < BPB && 0 < n <= MAXCHUNK && l0 == {}
    requires FewLogged(l0, l, sb, a, ino, off, n)
    ensures |l| <= MAXOPBLOCKS - 2
  {
    ChunkSpan(off, n);
    var m, inode := EndBlock(off, n) - off / BSIZE, sb.inodestart + ino / IPB;
    var t :| FewWith(l0, l - {inode}, sb, a, m, t);
    AddOne(t, 0);
    AddOne(t + {0}, a);
    assert t + {0, a} == t + {0} + {a};
    OneMapBlock(l0, l - {inode}, sb, t + {0, a});
    AddOne(l - {inode}, inode);
    SubsetSize(l, l - {inode} + {inode});
  }

  /** Block r, so far unowned, has been marked and zeroed; nothing else but the free map has changed. */
  ghost predicate Fresh(blocks: seq<Block>, blocks': seq<Block>, sb: Super, own: map<int, Use>, r: int) {
    && 0 < sb.data <= r < sb.size == |blocks'| && r !in own && blocks'[r] == Zero() && Bits(blocks', sb, own.Keys + {r})
    && OnlyAt(blocks, blocks', sb, r) && blocks'[0] == blocks[0]
  }

  lemma HasSpace(s: Fs, sb: Super, own: map<int, Use>, r: int)
    requires sb.Ok() && Linked(s, sb, own) && sb.data <= r < sb.size && r !in own
    ensures Space(sb, own) > 0
  {
    Full(sb, own);
  }

  /** The indirect block is a data block, with block numbers for entries. */
  lemma TableOk(s: Fs, sb: Super, own: map<int, Use>, i: nat, j: nat)
    requires Shape(s, sb) && Linked(s, sb, own) && i < |s.inodes| && j < NINDIRECT
    ensures var ib := Ptr(s, Indirect(i));
            && 0 <= ib < |s.blocks| && |s.blocks[ib]| == BSIZE
            && (ib == 0 ==> Ptr(s, Data(i, NDIRECT + j)) == 0)
            && (ib != 0 ==> ib in own && sb.data <= ib && Ptr(s, Data(i, NDIRECT + j)) == WordAt(s.blocks[ib], j))
  {
    var ib := Ptr(s, Indirect(i));
    if ib != 0 {
      assert own[ib] == Indirect(i);
    }
  }

  /** balloc, called with the buffer of block ib locked, waits for that buffer: it scans the free map as
      far as the block r that it finds, or all of it, and zeroes r. */
  predicate Hangs(sb: Super, ib: int, r: nat, full: bool) {
    || (!full && r == ib)
    || (sb.bmapstart <= ib <= sb.bmapstart + sb.size / BPB && (full || ib <= sb.bmapstart + r / BPB))
  }

  /** What is known of a write that block 0 has led astray. */
  ghost predicate TooFew(s0: Fs, own0: map<int, Use>, sb: Super, ino: nat, off0: nat, hi: nat) {
    Space(sb, own0) < Need(s0, ino, off0 / BSIZE, hi) && NDIRECT < hi && Ptr(s0, Indirect(ino)) == 0
  }

  /** A write that began at off0 in state s0, with b0 in block 0 and l0 in the log, has come to off and block k. */
  ghost predicate Under(s0: Fs, own0: map<int, Use>, b0: Block, l0: set<int>, s: Fs, own: map<int, Use>, l: set<int>,
                        sb: Super, ino: nat, off0: nat, tot: nat, off: nat, src: seq<int>, k: nat, hi: nat)
  {
    && off0 <= off <= off0 + |src| && tot <= |src|
    && forall x {:trigger Open(x)} | Open(x) ::
         && Progress(s0, own0, s, own, sb, ino, off0, off, src, k, hi)
         && Logged(l0, l, sb, s, ino, off0 / BSIZE, k) && |b0| == BSIZE && |s.blocks| > 0
         && s.blocks[0] == Spill(b0, off0, tot, src, Missing(s, ino, off0 / BSIZE, k))
  }

  lemma UnderStart(s: Fs, own: map<int, Use>, l: set<int>, sb: Super, ino: nat, off: nat, src: seq<int>, k: nat,
                   hi: nat)
    requires ino < |s.inodes| && k == off / BSIZE && |s.blocks| > 0 && |s.blocks[0]| == BSIZE
    ensures Under(s, own, s.blocks[0], l, s, own, l, sb, ino, off, 0, off, src, k, hi)
  {
    ProgressStart(s, own, sb, ino, off, src, k, hi, l);
    assert Missing(s, ino, off / BSIZE, k) == {};
  }

  lemma UnderAstray(s0: Fs, own0: map<int, Use>, b0: Block, l0: set<int>, s: Fs, own: map<int, Use>, l: set<int>,
                    sb: Super, ino: nat, off0: nat, tot: nat, off: nat, src: seq<int>, k: nat, hi: nat)
    requires Under(s0, own0, b0, l0, s, own, l, sb, ino, off0, tot, off, src, k, hi) && ino < |s0.inodes|
    requires NDIRECT <= k < hi <= MAXFILE && Space(sb, own) < Cost(s, ino, k) && Ptr(s, Indirect(ino)) == 0
    ensures TooFew(s0, own0, sb, ino, off0, hi)
  {
    assert Open(0);
    GoesAstray(s0, own0, s, own, sb, ino, off0, off, src, k, hi);
  }

  lemma UnderNext(s0: Fs, own0: map<int, Use>, b0: Block, l0: set<int>, s: Fs, own: map<int, Use>, l: set<int>,
                  s': Fs, own': map<int, Use>, l': set<int>, sb: Super, ino: nat, off0: nat, tot: nat, off: nat,
                  src: seq<int>, k: nat, hi: nat, m: nat, tot': nat, off': nat, k': nat)
    requires off == off0 + tot && 0 < m && off' == off + m <= off0 + |src| && tot' == tot + m && k' == k + 1
    requires ino < |s.inodes| && k < hi <= MAXFILE && off' <= MAXFILE * BSIZE
    requires (off == off0 || off % BSIZE == 0) && k == off / BSIZE && off % BSIZE + m <= BSIZE
    requires Under(s0, own0, b0, l0, s, own, l, sb, ino, off0, tot, off, src, k, hi)
    requires Round(s, own, s', own', sb, ino, off, src, tot, m, k)
    requires Logs(l, l', sb, Extra(s', ino, k, Ptr(s', Data(ino, k))))
    requires |s.blocks| > 0 && |s.blocks[0]| == BSIZE && |s'.blocks| > 0
    requires s'.blocks[0] == if Ptr(s', Data(ino, k)) == 0 then Patch(s.blocks[0], off % BSIZE, src, tot, m)
                             else s.blocks[0]
    ensures Under(s0, own0, b0, l0, s', own', l', sb, ino, off0, tot', off', src, k', hi)
  {
    assert Open(0);
    var lo := off0 / BSIZE;
    var lost, lost' := Missing(s, ino, lo, k), Missing(s', ino, lo, k');
    Progresses(s0, own0, s, own, s', own', sb, ino, off0, tot, off, src, k, hi, m, off', k');
    StepLogged(s0, own0, s, own, s', own', sb, ino, off0, tot, off, src, k, hi, m, l0, l, l', k');
    MissingNext(s, s', ino, lo, k, k');
    SpillNext(b0, off0, off, tot, src, lost, k, m, Ptr(s', Data(ino, k)) == 0, lost', tot', s.blocks[0], s'.blocks[0]);
  }

  /** A whole write of src from off on, by way of block hi: its bytes are in the file's blocks, those of
      the blocks the file has not are in block 0, and the log holds what it should. */
  ghost predicate Finished(s0: Fs, own0: map<int, Use>, b0: Block, l0: set<int>, s: Fs, own: map<int, Use>, l: set<int>,
                           sb: Super, ino: nat, off: nat, src: seq<int>, hi: nat)
  {
    && Keeps(s0, s, ino) && WroteThere(s0, s, ino, off, off + |src|, src)
    && Spacing(s0, own0, s, own, sb, ino, off / BSIZE, EndBlock(off, |src|), hi)
    && |b0| == BSIZE && |s.blocks| > 0
    && s.blocks[0] == Spill(b0, off, |src|, src, Missing(s, ino, off / BSIZE, EndBlock(off, |src|)))
    && WriteLogged(l0, l, sb, s, ino, off, |src|)
  }

  lemma SpacingSame(s0: Fs, own0: map<int, Use>, s: Fs, s': Fs, own: map<int, Use>, sb: Super, ino: nat, lo: nat,
                    k: nat, hi: nat)
    requires Spacing(s0, own0, s, own, sb, ino, lo, k, hi) && |s'.inodes| == |s.inodes|
    requires forall v {:trigger Ptr(s', v)} :: Ptr(s', v) == Ptr(s, v)
    ensures Spacing(s0, own0, s', own, sb, ino, lo, k, hi) && (There(s', ino, lo, k) <==> There(s, ino, lo, k))
  {
    BlanksSame(s, s', ino, k, hi);
    assert Ptr(s', Indirect(ino)) == Ptr(s, Indirect(ino));
    if There(s', ino, lo, k) {
      forall l: nat | lo <= l < k
        ensures Ptr(s, Data(ino, l)) != 0
      {
        assert Ptr(s', Data(ino, l)) != 0;
      }
    }
  }

  lemma KeepsSame(s0: Fs, s: Fs, s': Fs, ino: nat)
    requires Keeps(s0, s, ino) && |s'.inodes| == |s.inodes| && forall v {:trigger Ptr(s', v)} :: Ptr(s', v) == Ptr(s, v)
    ensures Keeps(s0, s', ino)
  {
    forall v | UseOk(s0, v) && (v.ino != ino || Ptr(s0, v) != 0)
      ensures Ptr(s', v) == Ptr(s0, v)
    {
      assert Ptr(s, v) == Ptr(s0, v);
    }
  }

  lemma TouchedSame(s: Fs, s': Fs, i: nat, lo: nat, hi: nat)
    requires forall v {:trigger Ptr(s', v)} :: Ptr(s', v) == Ptr(s, v)
    ensures Touched(s', i, lo, hi) == Touched(s, i, lo, hi)
  {
    assert Ptr(s', Indirect(i)) == Ptr(s, Indirect(i));
    assert (set l: nat | lo <= l < hi :: Ptr(s', Data(i, l))) == (set l: nat | lo <= l < hi :: Ptr(s, Data(i, l)));
  }

  lemma LogsInode(l0: set<int>, l: set<int>, l': set<int>, sb: Super, t: set<int>, inode: int)
    requires Logs(l0, l, sb, t) && l' <= l + {inode}
    ensures Logs(l0, l', sb, t + {inode})
  {
    forall x | x in l'
      ensures x in l0 || x in t + {inode} || sb.bmapstart <= x <= sb.bmapstart + sb.size / BPB
    {
      assert x in l + {inode};
    }
  }

  /** The last step, which is about the inode's size and its block alone, changes none of this. */
  lemma FinishSame(s0: Fs, own0: map<int, Use>, b0: Block, l0: set<int>, s: Fs, own: map<int, Use>, l: set<int>,
                   sb: Super,
                   ino: nat, off: nat, src: seq<int>, hi: nat, end: nat, s': Fs, l': set<int>)
    requires end == EndBlock(off, |src|) && ino < |s0.inodes|
    requires Under(s0, own0, b0, l0, s, own, l, sb, ino, off, |src|, off + |src|, src, end, hi)
    requires |s'.inodes| == |s.inodes| && s'.blocks == s.blocks && SameFile(s, s')
    requires l' <= l + {sb.inodestart + ino / IPB}
    requires forall v {:trigger Ptr(s', v)} :: Ptr(s', v) == Ptr(s, v)
    ensures Finished(s0, own0, b0, l0, s', own, l', sb, ino, off, src, hi)
  {
    assert Open(0);
    var lo := off / BSIZE;
    SpacingSame(s0, own0, s, s', own, sb, ino, lo, end, hi);
    WroteSame(s0, s, s', ino, off, off + |src|, src);
    KeepsSame(s0, s, s', ino);
    assert Missing(s', ino, lo, end) == Missing(s, ino, lo, end);
    TouchedSame(s, s', ino, lo, end);
    LogsInode(l0, l, l', sb, Touched(s, ino, lo, end), sb.inodestart + ino / IPB);
  }

  lemma FewInode(l0: set<int>, l: set<int>, l': set<int>, sb: Super, a: int, ino: nat, off: nat, n: nat)
    requires Few(l0, l, sb, a, EndBlock(off, n) - off / BSIZE) && l' <= l + {sb.inodestart + ino / IPB}
    ensures FewLogged(l0, l', sb, a, ino, off, n)
  {
    var m, inode := EndBlock(off, n) - off / BSIZE, sb.inodestart + ino / IPB;
    var t :| FewWith(l0, l, sb, a, m, t);
    assert FewWith(l0, l' - {inode}, sb, a, m, t) by {
      forall x | x in l' - {inode}
        ensures x in l
      {
        assert x in l + {inode};
      }
    }
  }

  /** At the end of a write, the file has all its blocks exactly if there were enough. */
  lemma SpaceDecides(s0: Fs, own0: map<int, Use>, s: Fs, own: map<int, Use>, sb: Super, ino: nat, lo: nat, hi: nat)
    requires Spacing(s0, own0, s, own, sb, ino, lo, hi, hi) && Space(sb, own) >= 0
    ensures There(s, ino, lo, hi) <==> Space(sb, own0) >= Need(s0, ino, lo, hi)
  {
  }

  function Max(a: nat, b: nat): nat { if a > b then a else b }

  lemma InRange(off: nat, n: nat, k: nat)
    requires off <= k * BSIZE < off + n
    ensures off / BSIZE <= k < EndBlock(off, n)
  {
    assert k <= (off + n - 1) / BSIZE;
  }

  /** A write leaves no hole exactly if it got all its blocks. */
  lemma FilledIff(s0: Fs, s: Fs, i: nat, off: nat, n: nat)
    requires Filled(s0) && Keeps(s0, s, i) && i < |s0.inodes| && off <= s0.inodes[i].size && off + n <= MAXFILE * BSIZE
    requires SizesBut(s0, s, i, Max(off + n, s0.inodes[i].size))
    ensures Filled(s) <==> There(s, i, off / BSIZE, EndBlock(off, n))
  {
    if There(s, i, off / BSIZE, EndBlock(off, n)) {
      forall j: nat, k: nat | j < |s.inodes| && k * BSIZE < s.inodes[j].size
        ensures Ptr(s, Data(j, k)) != 0
      {
        assert s0.inodes[j].size <= MAXFILE * BSIZE;
        if j == i && k * BSIZE >= s0.inodes[i].size {
          InRange(off, n, k);
        } else {
          assert Ptr(s0, Data(j, k)) != 0;
        }
      }
      assert forall j | 0 <= j < |s.inodes| :: s0.inodes[j].size <= MAXFILE * BSIZE;
    } else {
      var k: nat :| off / BSIZE <= k < EndBlock(off, n) && Ptr(s, Data(i, k)) == 0;
      assert k * BSIZE <= off + n - 1;
      assert s.inodes[i].size >= off + n;
    }
  }

  /** A block that is there is not needed. */
  lemma NeedBack(s: Fs, i: nat, lo: nat, k: nat, hi: nat)
    requires lo <= k <= lo + 1 && k <= hi <= MAXFILE && (lo < k ==> Ptr(s, Data(i, lo)) != 0)
    ensures Need(s, i, lo, hi) == Need(s, i, k, hi)
  {
  }

  /** One write after another. */
  lemma SpacingChain(s0: Fs, own0: map<int, Use>, s1: Fs, own1: map<int, Use>, s2: Fs, own2: map<int, Use>, sb: Super,
                     ino: nat, lo: nat, k1: nat, lo1: nat, k2: nat, hi: nat)
    requires Spacing(s0, own0, s1, own1, sb, ino, lo, k1, hi) && Spacing(s1, own1, s2, own2, sb, ino, lo1, k2, hi)
    requires lo <= lo1 <= k1 <= lo1 + 1 && k1 <= k2 <= hi <= MAXFILE && ino < |s1.inodes| && Keeps(s1, s2, ino)
    ensures Spacing(s0, own0, s2, own2, sb, ino, lo, k2, hi)
  {
    if There(s1, ino, lo, k1) {
      NeedBack(s1, ino, lo1, k1, hi);
      forall l: nat | lo <= l < k1
        ensures Ptr(s2, Data(ino, l)) == Ptr(s1, Data(ino, l)) != 0
      {
        assert UseOk(s1, Data(ino, l));
      }
      assert There(s2, ino, lo, k2) <==> There(s2, ino, lo1, k2);
    } else {
      var l: nat :| lo <= l < k1 && Ptr(s1, Data(ino, l)) == 0;
      assert Ptr(s2, Data(ino, l)) == 0 && !There(s2, ino, lo, k2);
    }
    if Space(sb, own0) == 0 {
      SameRecordsTrans(s0, s1, s2);
    }
  }

  lemma TooFewChain(s0: Fs, own0: map<int, Use>, s1: Fs, own1: map<int, Use>, sb: Super,
                    ino: nat, lo: nat, k1: nat, lo1: nat, hi: nat)
    requires Spacing(s0, own0, s1, own1, sb, ino, lo, k1, hi) && Space(sb, own1) < Need(s1, ino, lo1, hi)
    requires lo <= lo1 <= k1 <= lo1 + 1 && k1 <= hi <= MAXFILE
    ensures Space(sb, own0) < Need(s0, ino, lo, hi)
  {
    if There(s1, ino, lo, k1) {
      NeedBack(s1, ino, lo1, k1, hi);
    }
  }

  lemma NextChunk(off0: nat, i: nat, n: nat)
    requires 0 < n
    ensures var off, k := off0 + i, EndBlock(off0, i);
            off0 / BSIZE <= off / BSIZE <= k <= off / BSIZE + 1 && k <= EndBlock(off, n) == EndBlock(off0, i + n)
  {
  }

  lemma ChunkFits(off0: nat, i: nat, n: nat, all: nat)
    requires 0 < n && i + n <= all && off0 + i + n <= MAXFILE * BSIZE
    ensures EndBlock(off0 + i, n) <= MAXFILE && EndBlock(off0 + i, n) <= EndBlock(off0, all)
    ensures off0 + all <= MAXFILE * BSIZE ==> EndBlock(off0, all) <= MAXFILE
  {
  }

  /** Two writes, one after the other: unless a block of the first is missing, in which case no records
      change any more, the blocks that the file has stay. */
  lemma WroteChain(s0: Fs, s1: Fs, s2: Fs, ino: nat, off0: nat, off: nat, src: seq<int>, part: seq<int>, off2: nat)
    requires off0 <= off && off2 == off + |part| <= off0 + |src| && part == src[off - off0..off2 - off0]
    requires off2 <= MAXFILE * BSIZE && ino < |s0.inodes|
    requires WroteThere(s0, s1, ino, off0, off, src) && WroteThere(s1, s2, ino, off, off2, part)
    requires Keeps(s1, s2, ino) && (There(s1, ino, off0 / BSIZE, EndBlock(off0, off - off0)) || SameRecords(s1, s2))
    ensures WroteThere(s0, s2, ino, off0, off2, src)
  {
    forall i, x | 0 <= i < |s0.inodes| && 0 <= x < MAXFILE * BSIZE
      ensures At(s2, i, x) == if i == ino && off0 <= x < off2 && Ptr(s2, Data(ino, x / BSIZE)) != 0 then src[x - off0]
                              else At(s0, i, x)
    {
      assert At(s1, i, x) == if i == ino && off0 <= x < off && Ptr(s1, Data(ino, x / BSIZE)) != 0 then src[x - off0]
                             else At(s0, i, x);
      if i == ino && off0 <= x < off {
        assert off0 / BSIZE <= x / BSIZE < EndBlock(off0, off - off0);
        assert Ptr(s2, Data(ino, x / BSIZE)) == Ptr(s1, Data(ino, x / BSIZE));
      }
    }
  }

  /** A write of part, after one of what comes before it in src. */
  lemma ChunkDone(s0: Fs, own0: map<int, Use>, s1: Fs, own1: map<int, Use>, s2: Fs, own2: map<int, Use>, sb: Super,
                  ino: nat, off0: nat, i: nat, off: nat, src: seq<int>, part: seq<int>, off2: nat, hi: nat)
    requires off == off0 + i && 0 < |part| && off2 == off + |part| <= off0 + |src| && part == src[i..i + |part|]
    requires off2 <= MAXFILE * BSIZE && ino < |s0.inodes| && EndBlock(off, |part|) <= hi <= MAXFILE
    requires Keeps(s0, s1, ino) && WroteThere(s0, s1, ino, off0, off, src)
    requires Spacing(s0, own0, s1, own1, sb, ino, off0 / BSIZE, EndBlock(off0, i), hi)
    requires Keeps(s1, s2, ino) && WroteThere(s1, s2, ino, off, off2, part)
    requires Spacing(s1, own1, s2, own2, sb, ino, off / BSIZE, EndBlock(off, |part|), hi)
    ensures Keeps(s0, s2, ino) && WroteThere(s0, s2, ino, off0, off2, src)
    ensures Spacing(s0, own0, s2, own2, sb, ino, off0 / BSIZE, EndBlock(off0, i + |part|), hi)
  {
    NextChunk(off0, i, |part|);
    KeepsTrans(s0, s1, s2, ino);
    WroteChain(s0, s1, s2, ino, off0, off, src, part, off2);
    SpacingChain(s0, own0, s1, own1, s2, own2, sb, ino, off0 / BSIZE, EndBlock(off0, i), off / BSIZE,
                 EndBlock(off, |part|), hi);
  }

  /** What a filewrite has done up to off, its k-th block; closed until Open unfolds it. */
  ghost predicate Sofar(s0: Fs, own0: map<int, Use>, s: Fs, own: map<int, Use>, sb: Super, ino: nat, off0: nat,
                        off: nat, src: seq<int>, k: nat, hi: nat) {
    && off0 <= off <= off0 + |src|
    && forall x {:trigger Open(x)} | Open(x) ::
         && Keeps(s0, s, ino) && WroteThere(s0, s, ino, off0, off, src)
         && k == EndBlock(off0, off - off0) && Spacing(s0, own0, s, own, sb, ino, off0 / BSIZE, k, hi)
  }

  lemma SofarStart(s: Fs, own: map<int, Use>, sb: Super, ino: nat, off: nat, src: seq<int>, k: nat, hi: nat)
    requires k == EndBlock(off, 0)
    ensures Sofar(s, own, s, own, sb, ino, off, off, src, k, hi)
  {
    WroteStart(s, ino, off, src);
  }

  lemma SofarChunk(s0: Fs, own0: map<int, Use>, s1: Fs, own1: map<int, Use>, s2: Fs, own2: map<int, Use>, sb: Super,
                   ino: nat, off0: nat, i: nat, off: nat, src: seq<int>, part: seq<int>, off2: nat, hi: nat, k: nat,
                   k2: nat)
    requires off == off0 + i && 0 < |part| && off2 == off + |part| <= off0 + |src| && part == src[i..i + |part|]
    requires off2 <= MAXFILE * BSIZE && ino < |s0.inodes| && EndBlock(off, |part|) <= hi <= MAXFILE
    requires Sofar(s0, own0, s1, own1, sb, ino, off0, off, src, k, hi) && k2 == EndBlock(off0, i + |part|)
    requires Keeps(s1, s2, ino) && WroteThere(s1, s2, ino, off, off2, part)
    requires Spacing(s1, own1, s2, own2, sb, ino, off / BSIZE, EndBlock(off, |part|), hi)
    ensures Sofar(s0, own0, s2, own2, sb, ino, off0, off2, src, k2, hi)
  {
    assert Open(0);
    ChunkDone(s0, own0, s1, own1, s2, own2, sb, ino, off0, i, off, src, part, off2, hi);
  }

  lemma SofarTooFew(s0: Fs, own0: map<int, Use>, s1: Fs, own1: map<int, Use>, sb: Super, ino: nat, off0: nat, i: nat,
                    off: nat, n: nat, src: seq<int>, k: nat, hi: nat)
    requires Sofar(s0, own0, s1, own1, sb, ino, off0, off, src, k, hi)
    requires Space(sb, own1) < Need(s1, ino, off / BSIZE, hi)
    requires off == off0 + i && 0 < n && EndBlock(off, n) <= hi <= MAXFILE
    ensures Space(sb, own0) < Need(s0, ino, off0 / BSIZE, hi)
  {
    assert Open(0);
    NextChunk(off0, i, n);
    TooFewChain(s0, own0, s1, own1, sb, ino, off0 / BSIZE, k, off / BSIZE, hi);
  }

  lemma SofarGives(s0: Fs, own0: map<int, Use>, s: Fs, own: map<int, Use>, sb: Super, ino: nat, off0: nat, off: nat,
                   src: seq<int>, k: nat, hi: nat)
    requires Sofar(s0, own0, s, own, sb, ino, off0, off, src, k, hi)
    ensures Keeps(s0, s, ino) && WroteThere(s0, s, ino, off0, off, src)
  {
    assert Open(0);
  }

  /** Once all is written, the file has the blocks written to exactly if there was space for those missing. */
  lemma SofarDecides(s0: Fs, own0: map<int, Use>, s: Fs, own: map<int, Use>, sb: Super, ino: nat, off0: nat, off: nat,
                     src: seq<int>, k: nat, hi: nat)
    requires Sofar(s0, own0, s, own, sb, ino, off0, off, src, k, hi) && Space(sb, own) >= 0 && Space(sb, own0) >= 0
    requires k == hi || k == off0 / BSIZE
    ensures There(s, ino, off0 / BSIZE, k) <==> Space(sb, own0) >= Need(s0, ino, off0 / BSIZE, k)
  {
    assert Open(0);
    if k == hi {
      SpaceDecides(s0, own0, s, own, sb, ino, off0 / BSIZE, hi);
    }
  }

  /** How many bytes a read of n0 bytes at off gets. */
  function Clip(off: nat, n0: nat, size: nat): (n: nat)
    ensures n <= n0 && (n > 0 ==> off + n <= size) && (n < n0 ==> off + n >= size)
  {
    if off + n0 <= size then n0 else if off <= size then size - off else 0
  }

  /** The block that bmap answers with when no block is free. */
  function Target(s: Fs, i: nat, k: nat): int
    requires 0 < |s.blocks| && |s.blocks[0]| == BSIZE && k < MAXFILE
  {
    if Ptr(s, Data(i, k)) != 0 then Ptr(s, Data(i, k)) else Stray(s, i, k)
  }

  /** Byte o of what readi takes for block k. */
  function Seen(s: Fs, i: nat, k: nat, o: nat): int {
    if 0 < |s.blocks| && |s.blocks[0]| == BSIZE && k < MAXFILE && 0 <= Target(s, i, k) < |s.blocks|
       && o < |s.blocks[Target(s, i, k)]|
    then s.blocks[Target(s, i, k)][o] else 0
  }

  function SeenSlice(s: Fs, i: nat, off: nat, n: nat): (r: seq<int>)
    ensures |r| == n
  {
    seq(n, t requires 0 <= t < n => Seen(s, i, (off + t) / BSIZE, (off + t) % BSIZE))
  }

  lemma SeenMore(s: Fs, i: nat, off: nat, n: nat, bytes: seq<int>)
    requires (off + n) % BSIZE + |bytes| <= BSIZE
    ensures (forall y {:trigger bytes[y]} | 0 <= y < |bytes| ::
                bytes[y] == Seen(s, i, (off + n) / BSIZE, (off + n) % BSIZE + y))
            ==> SeenSlice(s, i, off, n) + bytes == SeenSlice(s, i, off, n + |bytes|)
  {
    if forall y {:trigger bytes[y]} | 0 <= y < |bytes| ::
         bytes[y] == Seen(s, i, (off + n) / BSIZE, (off + n) % BSIZE + y) {
      var l, r := SeenSlice(s, i, off, n) + bytes, SeenSlice(s, i, off, n + |bytes|);
      forall t: nat | t < n + |bytes|
        ensures l[t] == r[t]
      {
        if t >= n {
          SameBlock(off + n, off + t, |bytes|);
          assert l[t] == bytes[t - n];
        }
      }
    }
  }

  lemma InOwn(s: Fs, sb: Super, own: map<int, Use>, i: nat, k: nat)
    requires Shape(s, sb) && Linked(s, sb, own) && i < |s.inodes| && Ptr(s, Data(i, k)) != 0
    ensures k < MAXFILE && 0 < sb.data <= Ptr(s, Data(i, k)) < |s.blocks| && |s.blocks[Ptr(s, Data(i, k))]| == BSIZE
  {
    assert UseOk(s, Data(i, k));
  }

  lemma SeenAt(s: Fs, sb: Super, own: map<int, Use>, i: nat, x: nat)
    requires Shape(s, sb) && Linked(s, sb, own) && i < |s.inodes| && Ptr(s, Data(i, x / BSIZE)) != 0
    ensures Seen(s, i, x / BSIZE, x % BSIZE) == At(s, i, x)
  {
    InOwn(s, sb, own, i, x / BSIZE);
  }

  /** Where a file has no hole, what is seen is the file. */
  lemma SeenThere(s: Fs, sb: Super, own: map<int, Use>, i: nat, off: nat, n: nat)
    requires Shape(s, sb) && Linked(s, sb, own) && i < |s.inodes| && There(s, i, off / BSIZE, EndBlock(off, n))
    ensures SeenSlice(s, i, off, n) == Slice(s, i, off, n)
  {
    forall t: nat | t < n
      ensures SeenSlice(s, i, off, n)[t] == Slice(s, i, off, n)[t]
    {
      SliceAt(s, i, off, n, t);
      assert off / BSIZE <= (off + t) / BSIZE < EndBlock(off, n);
      assert Ptr(s, Data(i, (off + t) / BSIZE)) != 0;
      SeenAt(s, sb, own, i, off + t);
    }
  }

  /** A read of n bytes from off on, begun in state s0, has come to byte tot with dst. */
  ghost predicate Reading(s0: Fs, own0: map<int, Use>, s: Fs, own: map<int, Use>, sb: Super,
                          ino: nat, off: nat, tot: nat, n: nat, open: bool, dst: seq<int>)
  {
    && SameFile(s0, s) && SameSizes(s0, s) && |dst| == tot
    && forall x {:trigger Open(x)} | Open(x) ::
         var whole := There(s0, ino, off / BSIZE, EndBlock(off, n));
         && (!open || whole || Space(sb, own0) == 0 ==> s == s0 && own == own0)
         && (whole || Space(sb, own0) == 0 ==> dst == SeenSlice(s0, ino, off, tot))
         && (!open && Space(sb, own0) > 0 ==> There(s0, ino, off / BSIZE, EndBlock(off, tot)))
  }

  lemma ReadStart(s: Fs, own: map<int, Use>, sb: Super, ino: nat, off: nat, n: nat, open: bool)
    ensures Reading(s, own, s, own, sb, ino, off, 0, n, open, [])
  {
  }

  lemma NextRead(off: nat, tot: nat, n: nat)
    requires tot < n
    ensures var x := off + tot;
            && off / BSIZE <= x / BSIZE < EndBlock(off, n)
            && EndBlock(off, tot + Chunk(x, n - tot)) == x / BSIZE + 1 && EndBlock(off, tot) <= x / BSIZE + 1
            && (EndBlock(off, tot) == x / BSIZE + 1 || EndBlock(off, tot) == x / BSIZE)
  {
    var x := off + tot;
    var m := Chunk(x, n - tot);
    Euclid(x + m - 1, x / BSIZE, x % BSIZE + m - 1);
  }

  lemma ReadNext(s0: Fs, own0: map<int, Use>, s: Fs, own: map<int, Use>, s': Fs, own': map<int, Use>, sb: Super,
                 ino: nat, off: nat, tot: nat, n: nat, open: bool, dst: seq<int>, bytes: seq<int>,
                 tot': nat, dst': seq<int>)
    requires Reading(s0, own0, s, own, sb, ino, off, tot, n, open, dst) && tot < n
    requires tot' == tot + |bytes| && dst' == dst + bytes && |bytes| == Chunk(off + tot, n - tot)
    requires SameFile(s0, s') && SameSizes(s, s')
    requires var k, o := (off + tot) / BSIZE, (off + tot) % BSIZE;
             && (!open || Ptr(s, Data(ino, k)) != 0 || Space(sb, own) == 0 ==>
                   s' == s && own' == own
                   && forall y {:trigger bytes[y]} | 0 <= y < |bytes| :: bytes[y] == Seen(s', ino, k, o + y))
             && (!open && Space(sb, own) > 0 ==> Ptr(s, Data(ino, k)) != 0)
    ensures Reading(s0, own0, s', own', sb, ino, off, tot', n, open, dst')
  {
    assert Open(0);
    NextRead(off, tot, n);
    SeenMore(s0, ino, off, tot, bytes);
    if There(s0, ino, off / BSIZE, EndBlock(off, n)) {
      assert Ptr(s0, Data(ino, (off + tot) / BSIZE)) != 0;
    }
  }

  /** Where the file has no hole, the next round finds its block. */
  lemma ReadFinds(s0: Fs, own0: map<int, Use>, s: Fs, own: map<int, Use>, sb: Super,
                  ino: nat, off: nat, tot: nat, n: nat, open: bool, dst: seq<int>)
    requires Reading(s0, own0, s, own, sb, ino, off, tot, n, open, dst) && tot < n && ino < |s0.inodes|
    requires There(s0, ino, off / BSIZE, EndBlock(off, n)) && Shape(s0, sb) && Linked(s0, sb, own0)
    ensures Ptr(s, Data(ino, (off + tot) / BSIZE)) != 0 && off + tot < MAXFILE * BSIZE
  {
    assert Open(0);
    NextRead(off, tot, n);
    InOwn(s0, sb, own0, ino, (off + tot) / BSIZE);
  }

  lemma ReadEnd(s0: Fs, own0: map<int, Use>, s: Fs, own: map<int, Use>, sb: Super,
                ino: nat, off: nat, n: nat, open: bool, dst: seq<int>)
    requires Reading(s0, own0, s, own, sb, ino, off, n, n, open, dst) && Shape(s0, sb) && Linked(s0, sb, own0)
    requires ino < |s0.inodes|
    ensures var whole := There(s0, ino, off / BSIZE, EndBlock(off, n));
            && (whole ==> s == s0 && own == own0 && dst == Slice(s, ino, off, n))
            && (!open && Space(sb, own0) > 0 ==> whole)
            && (Space(sb, own0) == 0 ==> s == s0 && own == own0 && dst == SeenSlice(s, ino, off, n))
  {
    assert Open(0);
    if There(s0, ino, off / BSIZE, EndBlock(off, n)) {
      SeenThere(s0, sb, own0, ino, off, n);
    }
  }

  lemma {:induction false} ZeroBit(i: nat)
    ensures !Bit(0, i)
    decreases i
  {
    if i > 0 {
      ZeroBit(i - 1);
    }
  }

  /** A disk of zeroes marks no block. */
  lemma ZeroMap(disk: seq<Block>, start: nat, b: nat)
    requires forall c | 0 <= c < |disk| :: disk[c] == Zero()
    ensures !BitAt(disk, start, b)
  {
    ZeroBit(b % 8);
  }
}
