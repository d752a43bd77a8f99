/** The block allocator, inodes and file writes as the kernel runs them, in place. A ghost argument
    `sound` says that the free map and the inodes are consistent; without it a method still says what
    it keeps. */
module FileSystem {
  import opened Bytes
  import opened Counters
  import opened Inodes
  import opened Params

  /** How writei ends: n bytes, -1, or a kernel that panics or hangs on a block number that is none. */
  datatype Written = Done(n: nat) | Refused | Halted

  class FileSystem {
    var blocks: seq<Block>
    var inodes: seq<Inode>
    const sb: Super
    /** Who owns each allocated data block. */
    ghost var own: map<int, Use>
    /** Blocks passed to log_write in the current operation. */
    ghost var logged: set<int>

    /** A file system of n empty inodes on a disk whose free map marks the metadata blocks alone. */
    constructor (sb0: Super, disk: seq<Block>, n: nat)
      requires sb0.Ok() && |disk| == sb0.size && Bits(disk, sb0, {}) && forall b | 0 <= b < |disk| :: |disk[b]| == BSIZE
      ensures Valid() && sb == sb0 && blocks == disk && |inodes| == n && own == map[]
      ensures forall i | 0 <= i < n :: inodes[i] == Inode(NoAddrs(), 0)
    {
      sb, blocks, own, logged := sb0, disk, map[], {};
      inodes := seq(n, _ => Inode(NoAddrs(), 0));
    }

    ghost function S(): Fs
      reads this
    {
      Fs(blocks, inodes)
    }

    ghost predicate Consistent()
      reads this
    {
      Shape(S(), sb) && Linked(S(), sb, own) && Bits(blocks, sb, own.Keys)
    }

    /** Consistent, and no file has a hole. */
    ghost predicate Valid()
      reads this
    {
      Consistent() && Filled(S())
    }

    /** balloc's inner loop: the first clear bit of one block of the map. */
    method FindClear(b: nat) returns (bi: nat)
      requires Shape(S(), sb) && b % BPB == 0 && b < sb.size && AllSet(blocks, sb, b)
      ensures bi <= BPB && AllSet(blocks, sb, b + bi)
      ensures bi == BPB || b + bi >= sb.size || !BitAt(blocks, sb.bmapstart, b + bi)
    {
      MapBlock(sb, b);
      var bp := blocks[sb.bmapstart + b / BPB];
      bi := 0;
      while bi < BPB && b + bi < sb.size
        invariant bi <= BPB && AllSet(blocks, sb, b + bi)
      {
        ScanIndex(b, bi);
        assert BitAt(blocks, sb.bmapstart, b + bi) <==> Bit(bp[bi / 8], bi % 8);
        if !Bit(bp[bi / 8], bi % 8) {
          return;
        }
        bi := bi + 1;
      }
    }

    /** Marking and zeroing block r. */
    method Claim(r: nat, ghost ino: nat, ghost sound: bool)
      requires Shape(S(), sb) && (sound ==> Consistent())
      requires r < sb.size && !BitAt(blocks, sb.bmapstart, r) && AllSet(blocks, sb, r)
      modifies `blocks, `logged
      ensures Shape(S(), sb) && Claimed(old(blocks), blocks, sb, r) && Logs(old(logged), logged, sb, {r as int})
      ensures Covered(old(S()), old(logged), S(), logged, ino)
      ensures sound ==> Fresh(old(blocks), blocks, sb, own, r)
    {
      MapBlock(sb, r);
      CoveredSame(S(), logged, ino);
      CoveredBlock(S(), logged, S(), logged, sb.bmapstart + r / BPB,
                   MarkAt(blocks, sb.bmapstart, r, true)[sb.bmapstart + r / BPB], ino);
      if sound {
        BitsPut(blocks, sb, own.Keys, r, true);
      }
      blocks := MarkAt(blocks, sb.bmapstart, r, true);
      if sound {
        BitsApart(blocks, sb, own.Keys + {r}, r, Zero());
      }
      CoveredBlock(old(S()), old(logged), S(), logged + {sb.bmapstart + r / BPB}, r, Zero(), ino);
      blocks := blocks[r := Zero()];
      logged := logged + {sb.bmapstart + r / BPB} + {r as int};
    }

    /** balloc: the first block with a clear bit, marked and zeroed; 0, and full, if there is none. */
    method Balloc(ghost ino: nat, ghost sound: bool) returns (r: nat, full: bool)
      requires Shape(S(), sb) && (sound ==> Consistent())
      modifies `blocks, `logged
      ensures Shape(S(), sb) && Logs(old(logged), logged, sb, {r as int})
      ensures Covered(old(S()), old(logged), S(), logged, ino)
      ensures full <==> AllSet(old(blocks), sb, sb.size)
      ensures if full then r == 0 && unchanged(this) else Claimed(old(blocks), blocks, sb, r)
      ensures sound ==> Space(sb, own) >= 0 && (full <==> Space(sb, own) == 0)
      ensures sound && !full ==> Fresh(old(blocks), blocks, sb, own, r)
    {
      var b := 0;
      while b < sb.size
        invariant b % BPB == 0 && unchanged(this) && AllSet(blocks, sb, b)
      {
        var bi := FindClear(b);
        if bi < BPB && b + bi < sb.size {
          r, full := b + bi, false;
          Claim(r, ino, sound);
          if sound {
            HasSpace(old(S()), sb, own, r);
          }
          return;
        }
        b := b + BPB;
      }
      r, full := 0, true;
      CoveredSame(S(), logged, ino);
      if sound {
        NoneClear(S(), sb, own);
      }
    }

    /** bfree: panics (ok is false) on a block whose bit is clear. `keys` are the marked data blocks. */
    method Bfree(b: nat, ghost keys: set<int>, ghost ino: nat) returns (ok: bool)
      requires Shape(S(), sb) && Bits(blocks, sb, keys) && sb.data <= b < sb.size
      modifies `blocks, `logged
      ensures Shape(S(), sb) && OnlyAt(old(blocks), blocks, sb, 0) && Covered(old(S()), old(logged), S(), logged, ino)
      ensures ok <==> b in keys
      ensures !ok ==> unchanged(this)
      ensures Bits(blocks, sb, keys - {b})
    {
      MapBlock(sb, b);
      CoveredSame(S(), logged, ino);
      var bp, bi := blocks[sb.bmapstart + b / BPB], b % BPB;
      ok := BitAt(blocks, sb.bmapstart, b);
      if ok {
        BitsPut(blocks, sb, keys, b, false);
        CoveredBlock(S(), logged, S(), logged, sb.bmapstart + b / BPB,
                     MarkAt(blocks, sb.bmapstart, b, false)[sb.bmapstart + b / BPB], ino);
        blocks := MarkAt(blocks, sb.bmapstart, b, false);
        logged := logged + {sb.bmapstart + b / BPB};
      } else {
        assert keys - {b} == keys;
      }
    }

    /** A block of one's own for a use that has none; 0 if there is no room. */
    method Provide(ghost u: Use, ghost ino: nat, ghost sound: bool) returns (r: nat, full: bool)
      requires Shape(S(), sb) && (sound ==> Consistent() && UseOk(S(), u) && Ptr(S(), u) == 0)
      modifies `blocks, `logged
      ensures Shape(S(), sb) && Logs(old(logged), logged, sb, {r as int})
      ensures Covered(old(S()), old(logged), S(), logged, ino)
      ensures full ==> r == 0 && unchanged(this)
      ensures sound ==> Linked(S(), sb, own) && SameFile(old(S()), S()) && SameRecords(old(S()), S())
      ensures sound ==> Space(sb, own) >= 0 && (full <==> r == 0) && (full <==> Space(sb, own) == 0)
      ensures sound && !full ==> Fresh(old(blocks), blocks, sb, own, r)
    {
      r, full := Balloc(ino, sound);
      if sound && !full {
        Unowned(old(S()), sb, own, blocks, r);
      }
    }

    /** bmap on a direct block. */
    method BmapDirect(ino: nat, bn: nat, ghost sound: bool) returns (r: int, wrote: bool)
      requires Shape(S(), sb) && (sound ==> Consistent()) && ino < |inodes| && bn < NDIRECT
      modifies this
      ensures Shape(S(), sb) && SameSizes(old(S()), S()) && Addr(S(), ino, NDIRECT) == old(Addr(S(), ino, NDIRECT))
      ensures Logs(old(logged), logged, sb, {r}) && Covered(old(S()), old(logged), S(), logged, ino)
      ensures sound ==>
                Consistent() && Added(old(S()), S(), Data(ino, bn), r, old(own), own, sb) && blocks[0] == old(blocks)[0]
      ensures if wrote then old(Addr(S(), ino, bn)) == 0 else unchanged(this)
      ensures sound && old(Ptr(S(), Data(ino, bn))) == 0 ==> (wrote <==> r != 0)
    {
      ghost var u := Data(ino, bn);
      assert |inodes[ino].addrs| == NDIRECT + 1;
      r, wrote := inodes[ino].addrs[bn], false;
      CoveredSame(S(), logged, ino);
      if r == 0 {
        var p, full := Provide(u, ino, sound);
        wrote := !full;
        if sound && !full {
          AddDirect(S(), sb, own, ino, bn, p);
          own := own[p := u];
        }
        ghost var s1 := S();
        if p != 0 {
          inodes := inodes[ino := inodes[ino].(addrs := inodes[ino].addrs[bn := p])];
        }
        CoveredInode(old(S()), old(logged), s1, logged, S(), logged, ino);
        r := p;
      }
    }

    /** bmap's indirect block. */
    method BmapIndirect(ino: nat, ghost sound: bool) returns (r: int, wrote: bool)
      requires Shape(S(), sb) && (sound ==> Consistent()) && ino < |inodes|
      modifies this
      ensures Shape(S(), sb) && SameSizes(old(S()), S()) && Addr(S(), ino, NDIRECT) == r
      ensures old(Addr(S(), ino, NDIRECT)) != 0 ==> r == old(Addr(S(), ino, NDIRECT))
      ensures Logs(old(logged), logged, sb, {r}) && Covered(old(S()), old(logged), S(), logged, ino)
      ensures sound ==>
                Consistent() && Added(old(S()), S(), Indirect(ino), r, old(own), own, sb) && blocks[0] == old(blocks)[0]
      ensures if wrote then old(Addr(S(), ino, NDIRECT)) == 0 else unchanged(this)
      ensures sound && old(Ptr(S(), Indirect(ino))) == 0 ==> (wrote <==> r != 0)
    {
      ghost var u := Indirect(ino);
      assert |inodes[ino].addrs| == NDIRECT + 1;
      r, wrote := inodes[ino].addrs[NDIRECT], false;
      CoveredSame(S(), logged, ino);
      if r == 0 {
        var p, full := Provide(u, ino, sound);
        wrote := !full;
        if sound && !full {
          AddIndirect(S(), sb, own, ino, p);
          own := own[p := u];
        }
        ghost var s1 := S();
        if p != 0 {
          inodes := inodes[ino := inodes[ino].(addrs := inodes[ino].addrs[NDIRECT := p])];
        }
        CoveredInode(old(S()), old(logged), s1, logged, S(), logged, ino);
        r := p;
      }
    }

    /** bmap's entry in the table ib, the indirect block or, with none to be had, block 0. The kernel
        hangs (ok is false) if balloc needs the table's own buffer, which bmap holds meanwhile. */
    method BmapEntry(ino: nat, ib: int, j: nat, ghost sound: bool) returns (ok: bool, r: int, wrote: bool)
      requires Shape(S(), sb) && ino < |inodes| && j < NINDIRECT
      requires sound ==> Consistent() && ib == Ptr(S(), Indirect(ino)) && (ib == 0 ==> Space(sb, own) == 0)
      modifies this
      ensures Shape(S(), sb) && inodes == old(inodes)
      ensures ok ==> Logs(old(logged), logged, sb, {r, ib})
      ensures Covered(old(S()), old(logged), S(), logged, ino)
      ensures sound ==> ok && Consistent() && blocks[0] == old(blocks)[0]
      ensures sound && ib != 0 ==> Added(old(S()), S(), Data(ino, NDIRECT + j), r, old(own), own, sb)
      ensures sound && ib == 0 ==> unchanged(`blocks, `own) && r == WordAt(blocks[0], j)
      ensures ok && !wrote ==> unchanged(this)
      ensures sound && ib != 0 ==> (wrote <==> old(Ptr(S(), Data(ino, NDIRECT + j))) == 0)
    {
      ghost var u := Data(ino, NDIRECT + j);
      CoveredSame(S(), logged, ino);
      if sound {
        TableOk(S(), sb, own, ino, j);
      }
      if !(0 <= ib < |blocks|) {
        return false, 0, false;
      }
      r := WordAt(blocks[ib], j);
      ok, wrote := true, r == 0;
      if r == 0 {
        var p, full := Provide(u, ino, sound);
        if Hangs(sb, ib, p, full) {
          return false, 0, true;
        }
        if sound && !full {
          AddEntry(S(), sb, own, ino, j, p);
          BitsApart(blocks, sb, own.Keys + {p}, ib, PutWord(blocks[ib], j, p));
          own := own[p := u];
        }
        CoveredBlock(old(S()), old(logged), S(), logged, ib,
                     if p != 0 then PutWord(blocks[ib], j, p) else blocks[ib], ino);
        assert blocks[ib := blocks[ib]] == blocks;
        if p != 0 {
          blocks := blocks[ib := PutWord(blocks[ib], j, p)];
        }
        logged := logged + {ib};
        r := p;
      }
    }

    /** bmap. With no block free it returns 0, or what block 0 holds in place of the indirect block.
        wrote says that it has called log_write. */
    method Bmap(ino: nat, bn: nat, ghost sound: bool) returns (ok: bool, r: int, wrote: bool)
      requires Shape(S(), sb) && (sound ==> Consistent()) && ino < |inodes| && bn < MAXFILE
      modifies this
      ensures Shape(S(), sb) && SameSizes(old(S()), S())
      ensures old(Addr(S(), ino, NDIRECT)) != 0 ==> Addr(S(), ino, NDIRECT) == old(Addr(S(), ino, NDIRECT))
      ensures ok ==> Logs(old(logged), logged, sb, Extra(S(), ino, bn, r))
      ensures Covered(old(S()), old(logged), S(), logged, ino)
      ensures sound ==> ok && Consistent() && blocks[0] == old(blocks)[0]
      ensures sound ==> Answered(old(S()), old(own), S(), own, sb, ino, bn, r)
      ensures ok && !wrote ==> unchanged(this)
      ensures sound && old(Ptr(S(), Data(ino, bn))) != 0 ==> !wrote
      ensures sound && old(Ptr(S(), Data(ino, bn))) == 0 && old(Space(sb, own)) != 0 ==> wrote
    {
      ghost var s0, own0 := S(), own;
      if bn < NDIRECT {
        r, wrote := BmapDirect(ino, bn, sound);
        ok := true;
        if sound {
          AnsweredNear(s0, own0, S(), own, sb, ino, bn, r);
        }
        return;
      }
      var ib, first := BmapIndirect(ino, sound);
      ghost var s1, own1, l1 := S(), own, logged;
      if sound {
        Full(sb, own);
      }
      ok, r, wrote := BmapEntry(ino, ib, bn - NDIRECT, sound);
      wrote := wrote || first;
      CoveredTrans(s0, old(logged), s1, l1, S(), logged, ino);
      if sound {
        AnsweredFar(s0, own0, s1, own1, S(), own, sb, ino, bn, ib, r);
      }
    }

    /** either_copyin into block t, and log_write. */
    method Store(ghost ino: nat, ghost k: nat, t: nat, o: nat, src: seq<int>, tot: nat, m: nat, ghost sound: bool)
      requires Shape(S(), sb) && t < |blocks| && o + m <= BSIZE && tot + m <= |src|
      requires sound ==> Consistent() && ino < |inodes| && k < MAXFILE && t == Ptr(S(), Data(ino, k))
      modifies `blocks, `logged
      ensures Shape(S(), sb) && logged == old(logged) + {t as int}
      ensures |old(blocks)[t]| == BSIZE && blocks == old(blocks)[t := Patch(old(blocks)[t], o, src, tot, m)]
      ensures sound ==> Consistent() && |old(FileBlock(S(), ino, k))| == BSIZE
      ensures sound && t != 0 ==> Patched(old(S()), S(), ino, k, Patch(old(FileBlock(S(), ino, k)), o, src, tot, m))
      ensures sound && t == 0 ==> SameFile(old(S()), S()) && SameRecords(old(S()), S())
    {
      ghost var s0, data := S(), Patch(blocks[t], o, src, tot, m);
      if sound && t != 0 {
        PatchFile(s0, sb, own, ino, k, data);
        BitsApart(blocks, sb, own.Keys, t, data);
      } else if sound {
        Unowned(s0, sb, own, blocks[t := data], 0);
        BitsBoot(blocks, sb, own.Keys, data);
      }
      blocks := blocks[t := Patch(blocks[t], o, src, tot, m)];
      logged := logged + {t as int};
    }

    /** A round of writei: bmap, then copy into block t and log it. It stays sound unless block 0 leads
        it astray. */
    method WriteRound(ino: nat, off: nat, k: nat, src: seq<int>, tot: nat, ghost sound: bool)
      returns (ok: bool, m: nat, ghost t: int, ghost sound': bool)
      requires Shape(S(), sb) && (sound ==> Consistent()) && ino < |inodes|
      requires tot < |src| && off < MAXFILE * BSIZE && k == off / BSIZE < MAXFILE
      modifies this
      ensures Shape(S(), sb) && SameSizes(old(S()), S())
      ensures old(Addr(S(), ino, NDIRECT)) != 0 ==> Addr(S(), ino, NDIRECT) == old(Addr(S(), ino, NDIRECT))
      ensures ok ==> m == Chunk(off, |src| - tot) && Logs(old(logged), logged, sb, Extra(S(), ino, k, t))
      ensures Covered(old(S()), old(logged), S(), logged, ino)
      ensures sound' ==> sound && ok && Consistent() && t == Ptr(S(), Data(ino, k))
      ensures sound' ==> Round(old(S()), old(own), S(), own, sb, ino, off, src, tot, m, k)
      ensures sound' ==> |old(blocks)[0]| == BSIZE
                         && blocks[0] == if t == 0 then Patch(old(blocks)[0], off % BSIZE, src, tot, m)
                                         else old(blocks)[0]
      ensures sound && !sound' ==>
                old(Space(sb, own)) < old(Cost(S(), ino, k)) && k >= NDIRECT && old(Ptr(S(), Indirect(ino))) == 0
    {
      var p, wrote;
      ok, p, wrote := Bmap(ino, k, sound);
      m, t := Chunk(off, |src| - tot), p;
      ghost var s1 := S();
      sound' := sound && t == Ptr(s1, Data(ino, k));
      if !ok || !(0 <= p < |blocks|) {
        return false, m, t, sound';
      }
      CoveredBlock(old(S()), old(logged), S(), logged, p, Patch(blocks[p], off % BSIZE, src, tot, m), ino);
      Store(ino, k, p, off % BSIZE, src, tot, m, sound');
      if sound' {
        Full(sb, own);
      }
      if sound' && t != 0 {
        PatchRecords(old(S()), s1, S(), ino, k, Patch(FileBlock(s1, ino, k), off % BSIZE, src, tot, m));
        PatchPuts(s1, S(), ino, off, src, tot, m);
        PutAfterSame(old(S()), s1, S(), ino, off, src, tot, m);
      } else if sound' {
        StrayRecords(old(S()), s1, S(), ino, k);
      }
    }

    /** The same round, as a step of a write that began at off0. If was is set, the write was sound then. */
    method WriteStep(ino: nat, off: nat, src: seq<int>, tot: nat, ghost off0: nat, ghost k: nat, ghost hi: nat,
                     ghost s0: Fs, ghost own0: map<int, Use>, ghost b0: Block, ghost l0: set<int>, ghost n: nat,
                     ghost was: bool, ghost sound: bool)
      returns (ok: bool, tot': nat, off': nat, ghost k': nat, ghost sound': bool)
      requires Shape(S(), sb) && ino < |inodes| && off0 + |src| <= MAXFILE * BSIZE
      requires tot < |src| && Place(off0, tot, |src|, off, k) && EndBlock(off0, |src|) <= hi <= MAXFILE
      requires sound ==> Consistent() && Under(s0, own0, b0, l0, S(), own, logged, sb, ino, off0, tot, off, src, k, hi)
      requires was && !sound ==> TooFew(s0, own0, sb, ino, off0, hi)
      requires (sound ==> was) && SameSizes(s0, S()) && Few(l0, logged, sb, Addr(S(), ino, NDIRECT), n)
      requires Covered(s0, l0, S(), logged, ino)
      modifies this
      ensures Shape(S(), sb) && SameSizes(s0, S()) && (sound' ==> ok && sound)
      ensures ok ==> tot < tot' && k' == k + 1 && Place(off0, tot', |src|, off', k')
      ensures sound' ==>
                Consistent() && Under(s0, own0, b0, l0, S(), own, logged, sb, ino, off0, tot', off', src, k', hi)
      ensures was && !sound' ==> TooFew(s0, own0, sb, ino, off0, hi)
      ensures (ok ==> Few(l0, logged, sb, Addr(S(), ino, NDIRECT), n + 1)) && Covered(s0, l0, S(), logged, ino)
    {
      ghost var s1, own1, l1, t := S(), own, logged, 0;
      NextPlace(off0, tot, |src|, off, k);
      var m;
      ok, m, t, sound' := WriteRound(ino, off, off / BSIZE, src, tot, sound);
      tot', off', k' := tot + m, off + m, k + 1;
      CoveredTrans(s0, l0, s1, l1, S(), logged, ino);
      if ok {
        FewMore(l0, l1, logged, sb, S(), ino, k, t, Addr(s1, ino, NDIRECT), n);
      }
      if sound' {
        UnderNext(s0, own0, b0, l0, s1, own1, l1, S(), own, logged, sb, ino, off0, tot, off, src, k, hi, m, tot', off',
                  k');
      } else if sound {
        UnderAstray(s0, own0, b0, l0, s1, own1, l1, sb, ino, off0, tot, off, src, k, hi);
      }
    }

    /** writei's loop. */
    method WriteBlocks(ino: nat, off0: nat, src: seq<int>, ghost hi: nat, ghost sound: bool)
      returns (ok: bool, ghost sound': bool)
      requires Shape(S(), sb) && (sound ==> Consistent()) && ino < |inodes| && off0 + |src| <= MAXFILE * BSIZE
      requires EndBlock(off0, |src|) <= hi <= MAXFILE
      modifies this
      ensures Shape(S(), sb) && SameSizes(old(S()), S()) && (sound' ==> ok && sound)
      ensures sound' ==> |old(blocks)| > 0 && Consistent()
                         && Under(old(S()), old(own), old(blocks)[0], old(logged), S(), own, logged, sb,
                                  ino, off0, |src|, off0 + |src|, src, EndBlock(off0, |src|), hi)
      ensures sound && !sound' ==> TooFew(old(S()), old(own), sb, ino, off0, hi)
      ensures ok ==> Few(old(logged), logged, sb, Addr(S(), ino, NDIRECT), EndBlock(off0, |src|) - off0 / BSIZE)
      ensures Covered(old(S()), old(logged), S(), logged, ino)
    {
      var tot, off := 0, off0;
      ghost var k: nat, n: nat := off0 / BSIZE, 0;
      ghost var s0, own0, l0, b0 := S(), own, logged, blocks[0];
      UnderStart(s0, own0, l0, sb, ino, off0, src, k, hi);
      FewStart(l0, sb, Addr(s0, ino, NDIRECT));
      CoveredSame(s0, l0, ino);
      ok, sound' := true, sound;
      while tot < |src|
        invariant Place(off0, tot, |src|, off, k) && Shape(S(), sb) && SameSizes(s0, S()) && ok && (sound' ==> sound)
        invariant sound' ==>
                  Consistent() && Under(s0, own0, b0, l0, S(), own, logged, sb, ino, off0, tot, off, src, k, hi)
        invariant sound && !sound' ==> TooFew(s0, own0, sb, ino, off0, hi)
        invariant Few(l0, logged, sb, Addr(S(), ino, NDIRECT), n) && n == k - off0 / BSIZE
        invariant Covered(s0, l0, S(), logged, ino)
        decreases |src| - tot
      {
        var tot', off';
        ghost var k';
        ok, tot', off', k', sound' :=
          WriteStep(ino, off, src, tot, off0, k, hi, s0, own0, b0, l0, n, sound, sound');
        if !ok {
          return;
        }
        tot, off, k, n := tot', off', k', n + 1;
      }
    }

    /** writei's last step: a file that was written past its end grows, and the inode is written back. */
    method EndWrite(ino: nat, off: nat, n: nat, ghost sound: bool)
      requires Shape(S(), sb) && (sound ==> Consistent()) && ino < |inodes| && off <= inodes[ino].size
      modifies `inodes, `logged
      ensures Shape(S(), sb) && (sound ==> Consistent())
      ensures logged == old(logged) + if n > 0 then {sb.inodestart + ino / IPB} else {}
      ensures S() == old(PutSize(S(), ino, Max(off + n, inodes[ino].size)))
      ensures SizesBut(old(S()), S(), ino, Max(off + n, old(inodes[ino].size)))
      ensures Addr(S(), ino, NDIRECT) == old(Addr(S(), ino, NDIRECT))
      ensures sound ==> SameFile(old(S()), S()) && forall v {:trigger Ptr(S(), v)} :: Ptr(S(), v) == old(Ptr(S(), v))
    {
      if sound {
        SizeApart(S(), sb, own, ino, Max(off + n, inodes[ino].size));
      }
      if n > 0 {
        if off + n > inodes[ino].size {
          inodes := inodes[ino := inodes[ino].(size := off + n)];
        }
        logged := logged + {sb.inodestart + ino / IPB};
      }
      assert S().inodes == old(PutSize(S(), ino, Max(off + n, inodes[ino].size))).inodes;
    }

    /** writei's loop and last step. */
    method WriteAndGrow(ino: nat, off: nat, src: seq<int>, ghost hi: nat, ghost sound: bool)
      returns (ok: bool, ghost sound': bool)
      requires Shape(S(), sb) && (sound ==> Consistent()) && ino < |inodes| && off <= inodes[ino].size
      requires off + |src| <= MAXFILE * BSIZE && EndBlock(off, |src|) <= hi <= MAXFILE
      modifies this
      ensures Shape(S(), sb) && |inodes| == old(|inodes|) && (sound' ==> ok && sound && Consistent())
      ensures ok ==> SizesBut(old(S()), S(), ino, Max(off + |src|, old(inodes[ino].size)))
      ensures ok ==> FewLogged(old(logged), logged, sb, Addr(S(), ino, NDIRECT), ino, off, |src|)
      ensures Covered(old(S()), old(logged), S(), logged, ino)
      ensures ok && src != [] ==> sb.inodestart + ino / IPB in logged
      ensures sound' ==>
                Finished(old(S()), old(own), old(blocks)[0], old(logged), S(), own, logged, sb, ino, off, src, hi)
      ensures sound' && old(Filled(S())) ==> (Filled(S()) <==> There(S(), ino, off / BSIZE, EndBlock(off, |src|)))
      ensures sound && !sound' ==> TooFew(old(S()), old(own), sb, ino, off, hi)
    {
      ok, sound' := WriteBlocks(ino, off, src, hi, sound);
      if !ok {
        return;
      }
      ghost var s1, l1 := S(), logged;
      assert s1.inodes[ino].size == old(inodes[ino].size);
      EndWrite(ino, off, |src|, sound');
      CoveredInode(old(S()), old(logged), s1, l1, S(), logged, ino);
      FewInode(old(logged), l1, logged, sb, Addr(s1, ino, NDIRECT), ino, off, |src|);
      if sound' {
        FinishSame(old(S()), old(own), old(blocks)[0], old(logged), s1, own, l1, sb, ino, off, src, hi,
                   EndBlock(off, |src|), S(), logged);
        if Filled(old(S())) {
          FilledIff(old(S()), S(), ino, off, |src|);
        }
      }
    }

    /** writei, as part of a longer write that needs blocks up to hi. It stays sound unless block 0 leads
        it astray. */
    method WriteUpTo(ino: nat, off: nat, src: seq<int>, ghost hi: nat, ghost sound: bool)
      returns (r: Written, ghost sound': bool)
      requires Shape(S(), sb) && (sound ==> Consistent()) && ino < |inodes| && off < U32 && |src| < U32
      requires off + |src| <= MAXFILE * BSIZE ==> EndBlock(off, |src|) <= hi <= MAXFILE
      modifies this
      ensures Shape(S(), sb) && |inodes| == old(|inodes|)
      ensures r.Refused? <==> off > old(inodes[ino].size) || off + |src| > MAXFILE * BSIZE
      ensures r.Refused? ==> unchanged(this) && sound' == sound
      ensures sound' ==> !r.Halted? && sound && Consistent()
      ensures r.Done? ==> r.n == |src| && SizesBut(old(S()), S(), ino, Max(off + |src|, old(inodes[ino].size)))
      ensures r.Done? ==> FewLogged(old(logged), logged, sb, Addr(S(), ino, NDIRECT), ino, off, |src|)
      ensures Covered(old(S()), old(logged), S(), logged, ino)
      ensures r.Done? && src != [] ==> sb.inodestart + ino / IPB in logged
      ensures r.Done? && sound' ==>
                Finished(old(S()), old(own), old(blocks)[0], old(logged), S(), own, logged, sb, ino, off, src, hi)
      ensures r.Done? && sound' && old(Filled(S())) ==>
                (Filled(S()) <==> There(S(), ino, off / BSIZE, EndBlock(off, |src|)))
      ensures sound && !sound' ==> TooFew(old(S()), old(own), sb, ino, off, hi)
    {
      CoveredSame(S(), logged, ino);
      if off > inodes[ino].size || (off + |src|) % U32 < off {
        return Refused, sound;
      }
      if (off + |src|) % U32 > MAXFILE * BSIZE {
        return Refused, sound;
      }
      var ok;
      ok, sound' := WriteAndGrow(ino, off, src, hi, sound);
      r := if ok then Done(|src|) else Halted;
    }

    /** writei of all of src at off. It returns |src| even when blocks are missing: their bytes then go to
        block 0, or where block 0 leads. The file gets all its bytes, and has no hole, exactly if as many
        blocks were free as were missing. */
    method Writei(ino: nat, off: nat, src: seq<int>, ghost sound: bool) returns (r: Written, ghost sound': bool)
      requires Shape(S(), sb) && (sound ==> Consistent()) && ino < |inodes| && off < U32 && |src| < U32
      modifies this
      ensures Shape(S(), sb) && |inodes| == old(|inodes|)
      ensures r.Refused? <==> off > old(inodes[ino].size) || off + |src| > MAXFILE * BSIZE
      ensures r.Refused? ==> unchanged(this) && sound' == sound
      ensures sound' ==> !r.Halted? && sound && Consistent()
      ensures r.Done? ==> r.n == |src| && SizesBut(old(S()), S(), ino, Max(off + |src|, old(inodes[ino].size)))
      ensures r.Done? ==> FewLogged(old(logged), logged, sb, Addr(S(), ino, NDIRECT), ino, off, |src|)
      ensures Covered(old(S()), old(logged), S(), logged, ino)
      ensures r.Done? && src != [] ==> sb.inodestart + ino / IPB in logged
      ensures r.Done? && sound' ==>
                Finished(old(S()), old(own), old(blocks)[0], old(logged), S(), own, logged, sb, ino, off, src,
                         EndBlock(off, |src|))
      ensures sound && !r.Refused? ==>
                (sound' && There(S(), ino, off / BSIZE, EndBlock(off, |src|))
                 <==> old(Space(sb, own)) >= old(Need(S(), ino, off / BSIZE, EndBlock(off, |src|))))
      ensures r.Done? && sound' && old(Filled(S())) ==>
                (Filled(S()) && Wrote(old(S()), S(), ino, off, off + |src|, src)
                 <==> old(Space(sb, own)) >= old(Need(S(), ino, off / BSIZE, EndBlock(off, |src|))))
      ensures sound && !sound' ==> NDIRECT < EndBlock(off, |src|) && old(Ptr(S(), Indirect(ino))) == 0
    {
      ghost var hi := EndBlock(off, |src|);
      if off + |src| <= MAXFILE * BSIZE {
        FileFits(off, |src|);
      }
      r, sound' := WriteUpTo(ino, off, src, hi, sound);
      if sound' && r.Done? {
        Full(sb, own);
        SpaceDecides(old(S()), old(own), S(), own, sb, ino, off / BSIZE, hi);
        if There(S(), ino, off / BSIZE, hi) {
          WroteAll(old(S()), S(), ino, off, src);
        }
      }
    }

    /** writei as an operation of its own. */
    method OneOperation(ino: nat, off: nat, part: seq<int>, ghost hi: nat, ghost sound: bool)
      returns (w: Written, ghost sound': bool, ghost l: nat)
      requires Shape(S(), sb) && (sound ==> Consistent()) && ino < |inodes| && 0 < |part| <= MAXCHUNK && off < U32
      requires off + |part| <= MAXFILE * BSIZE ==> EndBlock(off, |part|) <= hi <= MAXFILE
      modifies this
      ensures Shape(S(), sb) && |inodes| == old(|inodes|)
      ensures w.Refused? <==> off > old(inodes[ino].size) || off + |part| > MAXFILE * BSIZE
      ensures w.Refused? ==> unchanged(`blocks, `inodes, `own) && sound' == sound
      ensures w.Done? ==> w.n == |part| && SizesBut(old(S()), S(), ino, Max(off + |part|, old(inodes[ino].size)))
      ensures w.Done? && sb.size < BPB ==> l <= if sound' then MAXOPBLOCKS - 3 else MAXOPBLOCKS - 2
      ensures sound' ==> !w.Halted? && sound && Consistent()
      ensures sound' && w.Done? ==> Keeps(old(S()), S(), ino) && WroteThere(old(S()), S(), ino, off, off + |part|, part)
      ensures sound' && w.Done? ==>
                Spacing(old(S()), old(own), S(), own, sb, ino, off / BSIZE, EndBlock(off, |part|), hi)
      ensures sound && !sound' ==> old(Space(sb, own)) < old(Need(S(), ino, off / BSIZE, hi))
    {
      logged := {};
      ghost var l0 := logged;
      w, sound' := WriteUpTo(ino, off, part, hi, sound);
      l := |logged|;
      if w.Done? && sb.size < BPB {
        EightBlocks(sb, Addr(S(), ino, NDIRECT), ino, off, |part|, l0, logged);
        if sound' {
          SevenBlocks(S(), sb, ino, off, |part|, l0, logged);
        }
      }
    }

    /** A round of filewrite, begin_op, writei, end_op: bytes i..i + n1 of src. l is how many blocks the
        operation logged. */
    method WriteChunk(ino: nat, off: nat, src: seq<int>, i: nat, n1: nat, ghost s0: Fs, ghost own0: map<int, Use>,
                      ghost off0: nat, ghost k: nat, ghost hi: nat, ghost was: bool, ghost sound: bool)
      returns (w: Written, i': nat, off': nat, ghost k': nat, ghost sound': bool, ghost l: nat)
      requires Shape(S(), sb) && ino < |inodes| == |s0.inodes| && 0 < n1 <= MAXCHUNK && i + n1 <= |src| < U32
      requires off == off0 + i < U32
      requires off + n1 <= MAXFILE * BSIZE ==> EndBlock(off, n1) <= hi <= MAXFILE
      requires (sound ==> was && Consistent()) && (i > 0 ==> off <= MAXFILE * BSIZE)
      requires sound ==> Sofar(s0, own0, S(), own, sb, ino, off0, off, src, k, hi)
      requires was && !sound ==> Space(sb, own0) < Need(s0, ino, off0 / BSIZE, hi)
      modifies this
      ensures i' == i + n1 && off' == off + n1 && k' == EndBlock(off0, i')
      ensures Shape(S(), sb) && |inodes| == old(|inodes|)
      ensures w.Refused? <==> off > old(inodes[ino].size) || off + n1 > MAXFILE * BSIZE
      ensures w.Refused? ==> unchanged(`blocks, `inodes, `own) && sound' == sound
      ensures w.Done? ==> w.n == n1 && SizesBut(old(S()), S(), ino, Max(off', old(inodes[ino].size)))
      ensures w.Done? && sb.size < BPB ==> l <= if sound' then MAXOPBLOCKS - 3 else MAXOPBLOCKS - 2
      ensures sound' ==> !w.Halted? && sound && Consistent()
      ensures sound' && w.Done? ==> Sofar(s0, own0, S(), own, sb, ino, off0, off', src, k', hi)
      ensures was && !sound' ==> Space(sb, own0) < Need(s0, ino, off0 / BSIZE, hi)
    {
      var part := src[i..i + n1];
      ghost var s1, own1 := S(), own;
      w, sound', l := OneOperation(ino, off, part, hi, sound);
      i', off', k' := i + n1, off + n1, EndBlock(off0, i + n1);
      if sound' && w.Done? {
        SofarChunk(s0, own0, s1, own1, S(), own, sb, ino, off0, i, off, src, part, off', hi, k, k');
      } else if sound && !sound' {
        SofarTooFew(s0, own0, s1, own1, sb, ino, off0, i, off, n1, src, k, hi);
      }
    }

    /** The loop of filewrite; w is what the last writei returned. */
    method WriteChunks(ino: nat, off0: nat, src: seq<int>, ghost hi: nat, ghost sound: bool)
      returns (w: Written, off: nat, ghost sound': bool, ghost worst: nat, ghost k: nat)
      requires Shape(S(), sb) && (sound ==> Consistent()) && ino < |inodes| && off0 < U32 && |src| < U32
      requires hi == EndInFile(off0, |src|)
      modifies this
      ensures Shape(S(), sb) && |inodes| == old(|inodes|) && (sound' ==> !w.Halted? && sound && Consistent())
      ensures off0 <= off <= off0 + |src| && k == EndBlock(off0, off - off0) && (w.Done? ==> off == off0 + |src|)
      ensures w.Done? && src != [] ==> off0 <= old(inodes[ino].size) && off <= MAXFILE * BSIZE
      ensures w.Refused? ==>
                off < off0 + |src| && (off0 > old(inodes[ino].size) || off0 + |src| > MAXFILE * BSIZE)
      ensures !w.Halted? ==>
                SizesBut(old(S()), S(), ino, if off == off0 then old(inodes[ino].size)
                                             else Max(off, old(inodes[ino].size)))
      ensures sound' ==> Sofar(old(S()), old(own), S(), own, sb, ino, off0, off, src, k, hi)
      ensures sound && !sound' ==> old(Space(sb, own)) < old(Need(S(), ino, off0 / BSIZE, hi))
      ensures sb.size < BPB ==> worst <= if sound' then MAXOPBLOCKS - 3 else MAXOPBLOCKS - 2
    {
      var i := 0;
      off, worst, sound', w, k := off0, 0, sound, Done(0), EndBlock(off0, 0);
      ghost var s0, own0, size0 := S(), own, inodes[ino].size;
      SofarStart(s0, own0, sb, ino, off0, src, k, hi);
      while i < |src|
        invariant 0 <= i <= |src| && off == off0 + i && Shape(S(), sb) && |inodes| == |s0.inodes| && w.Done?
        invariant i > 0 ==> off <= MAXFILE * BSIZE && off0 <= size0
        invariant SizesBut(s0, S(), ino, if i == 0 then size0 else Max(off, size0)) && k == EndBlock(off0, i)
        invariant sound' ==> sound && Consistent() && Sofar(s0, own0, S(), own, sb, ino, off0, off, src, k, hi)
        invariant sound && !sound' ==> Space(sb, own0) < Need(s0, ino, off0 / BSIZE, hi)
        invariant sb.size < BPB ==> worst <= if sound' then MAXOPBLOCKS - 3 else MAXOPBLOCKS - 2
      {
        var n1 := if |src| - i > MAXCHUNK then MAXCHUNK else |src| - i;
        if off + n1 <= MAXFILE * BSIZE {
          ChunkFits(off0, i, n1, |src|);
        }
        var i', off';
        ghost var l, k';
        assert inodes[ino].size == if i == 0 then size0 else Max(off, size0);
        w, i', off', k', sound', l := WriteChunk(ino, off, src, i, n1, s0, own0, off0, k, hi, sound, sound');
        if !w.Done? {
          return;
        }
        worst := Max(l, worst);
        off, i, k := off', i', k';
      }
    }

    /** filewrite's loop over chunks of at most MAXCHUNK bytes, one log operation each. `worst` is the
        largest number of blocks that an operation has logged. */
    method Filewrite(ino: nat, off0: nat, src: seq<int>, ghost sound: bool)
      returns (halted: bool, r: int, off: nat, ghost sound': bool, ghost worst: nat)
      requires Shape(S(), sb) && (sound ==> Consistent()) && ino < |inodes| && off0 < U32 && |src| < U32
      modifies this
      ensures Shape(S(), sb) && |inodes| == old(|inodes|) && (sound' ==> !halted && sound && Consistent())
      ensures !halted ==>
                (r == -1 || r == |src|) && off0 <= off <= off0 + |src| && (r == |src| <==> off == off0 + |src|)
      ensures !halted ==> (r == -1 <==> src != [] && (off0 > old(inodes[ino].size) || off0 + |src| > MAXFILE * BSIZE))
      ensures !halted ==>
                SizesBut(old(S()), S(), ino, if off == off0 then old(inodes[ino].size)
                                             else Max(off, old(inodes[ino].size)))
      ensures sound' ==>
                && off0 <= off <= off0 + |src| && Keeps(old(S()), S(), ino)
                && WroteThere(old(S()), S(), ino, off0, off, src)
      ensures sound && !halted && r == |src| ==>
                (sound' && There(S(), ino, off0 / BSIZE, EndBlock(off0, |src|))
                 <==> old(Space(sb, own)) >= old(Need(S(), ino, off0 / BSIZE, EndBlock(off0, |src|))))
      ensures sound && halted ==>
                old(Space(sb, own)) < old(Need(S(), ino, off0 / BSIZE, EndInFile(off0, |src|)))
      ensures sb.size < BPB ==> worst <= if sound' then MAXOPBLOCKS - 3 else MAXOPBLOCKS - 2
    {
      ghost var hi := EndInFile(off0, |src|);
      ghost var s0, own0, k := S(), own, 0;
      if sound {
        Full(sb, own);
      }
      var w;
      w, off, sound', worst, k := WriteChunks(ino, off0, src, hi, sound);
      halted, r := w.Halted?, if w.Done? then |src| else -1;
      if sound' {
        SofarGives(s0, own0, S(), own, sb, ino, off0, off, src, k, hi);
      }
      if sound' && w.Done? {
        Full(sb, own);
        SofarDecides(s0, own0, S(), own, sb, ino, off0, off, src, k, hi);
      }
    }

    /** A round of readi at byte x: the part of one block that is wanted. False is a panic. */
    method ReadRound(ino: nat, x: nat, left: nat, open: bool) returns (ok: bool, bytes: seq<int>)
      requires Consistent() && ino < |inodes| && left > 0
      modifies this
      ensures Consistent() && SameFile(old(S()), S()) && SameSizes(old(S()), S())
      ensures old(Ptr(S(), Data(ino, x / BSIZE))) != 0 && x < MAXFILE * BSIZE ==> ok
      ensures ok ==> x < MAXFILE * BSIZE && |bytes| == Chunk(x, left)
      ensures ok && (!open || old(Ptr(S(), Data(ino, x / BSIZE))) != 0 || old(Space(sb, own)) == 0) ==>
                unchanged(`blocks, `inodes, `own)
                && forall y {:trigger bytes[y]} | 0 <= y < |bytes| ::
                     bytes[y] == Seen(S(), ino, x / BSIZE, x % BSIZE + y)
      ensures ok && !open && old(Space(sb, own)) > 0 ==> old(Ptr(S(), Data(ino, x / BSIZE))) != 0
    {
      var k, o := x / BSIZE, x % BSIZE;
      if k >= MAXFILE {
        return false, [];
      }
      var p, wrote;
      ok, p, wrote := Bmap(ino, k, true);
      if !ok || (wrote && !open) || !(0 <= p < |blocks|) {
        return false, [];
      }
      bytes := blocks[p][o..o + Chunk(x, left)];
    }

    /** A round of readi, as a step of a read that began in state s0. */
    method ReadStep(ino: nat, off: nat, tot: nat, n: nat, open: bool, dst: seq<int>, ghost s0: Fs,
                    ghost own0: map<int, Use>)
      returns (ok: bool, bytes: seq<int>, tot': nat, dst': seq<int>)
      requires Consistent() && ino < |inodes| && tot < n && Shape(s0, sb) && Linked(s0, sb, own0)
      requires Reading(s0, own0, S(), own, sb, ino, off, tot, n, open, dst)
      modifies this
      ensures Consistent() && SameFile(s0, S()) && SameSizes(s0, S())
      ensures There(s0, ino, off / BSIZE, EndBlock(off, n)) ==> ok
      ensures ok ==> tot < tot' <= n && Reading(s0, own0, S(), own, sb, ino, off, tot', n, open, dst')
    {
      ghost var s1, own1 := S(), own;
      NextRead(off, tot, n);
      if There(s0, ino, off / BSIZE, EndBlock(off, n)) {
        ReadFinds(s0, own0, s1, own1, sb, ino, off, tot, n, open, dst);
      }
      ok, bytes := ReadRound(ino, off + tot, n - tot, open);
      tot', dst' := tot + |bytes|, dst + bytes;
      SameFileTrans(s0, s1, S());
      if ok {
        ReadNext(s0, own0, s1, own1, S(), own, sb, ino, off, tot, n, open, dst, bytes, tot', dst');
      }
    }

    /** readi, clipped to the size of the file. open says that an operation is outstanding, so that
        log_write does not panic; halted is a panic. A file without a hole where it is read gives its bytes,
        and nothing changes. A hole makes the kernel panic if a block is free but no operation is
        outstanding; with no block free it shows block 0, or what block 0 names. */
    method Readi(ino: nat, off: nat, n0: nat, open: bool) returns (halted: bool, r: int, dst: seq<int>)
      requires Consistent() && ino < |inodes| && off < U32 && n0 < U32
      modifies this
      ensures Consistent() && SameFile(old(S()), S()) && SameSizes(old(S()), S())
      ensures r == -1 <==> !halted && (off > inodes[ino].size || off + n0 >= U32)
      ensures r == -1 ==> unchanged(this)
      ensures var n := Clip(off, n0, inodes[ino].size);
              off <= inodes[ino].size && off + n0 < U32 ==>
                && (!halted ==> r == n == |dst|)
                && (There(old(S()), ino, off / BSIZE, EndBlock(off, n)) ==>
                      !halted && unchanged(`blocks, `inodes, `own) && dst == Slice(S(), ino, off, n))
                && (!There(old(S()), ino, off / BSIZE, EndBlock(off, n)) && !open && old(Space(sb, own)) > 0 ==> halted)
                && (!halted && old(Space(sb, own)) == 0 ==>
                      unchanged(`blocks, `inodes, `own) && dst == SeenSlice(S(), ino, off, n))
    {
      if off > inodes[ino].size || (off + n0) % U32 < off {
        return false, -1, [];
      }
      var n := if off + n0 > inodes[ino].size then inodes[ino].size - off else n0;
      ghost var s0, own0 := S(), own;
      var tot := 0;
      halted, r, dst := false, n, [];
      ReadStart(s0, own0, sb, ino, off, n, open);
      while tot < n
        invariant tot <= n && Consistent() && !halted && Reading(s0, own0, S(), own, sb, ino, off, tot, n, open, dst)
        decreases n - tot
      {
        var ok, bytes, tot', dst' := ReadStep(ino, off, tot, n, open, dst, s0, own0);
        if !ok {
          halted := true;
          return;
        }
        dst, tot := dst', tot';
      }
      ReadEnd(s0, own0, S(), own, sb, ino, off, n, open, dst);
    }

    /** A round of itrunc's loop over direct blocks. */
    method TruncDirect(ino: nat, k: nat)
      requires Consistent() && ino < |inodes| && k < NDIRECT
      modifies this
      ensures Consistent() && Untouched(old(S()), S(), ino) && PtrPut(old(S()), S(), Data(ino, k), 0)
      ensures own == old(own) - {old(Ptr(S(), Data(ino, k)))} && inodes[ino].size == old(inodes[ino].size)
      ensures Covered(old(S()), old(logged), S(), logged, ino)
    {
      CoveredSame(S(), logged, ino);
      assert |inodes[ino].addrs| == NDIRECT + 1;
      var p := inodes[ino].addrs[k];
      ghost var s0 := S();
      assert Ptr(s0, Data(ino, k)) == p;
      if p != 0 {
        assert own[p] == Data(ino, k);
        var ok := Bfree(p, own.Keys, ino);
        ghost var s1 := S();
        assert ok;
        DropDirect(s0, sb, own, blocks, ino, k);
        inodes := inodes[ino := inodes[ino].(addrs := inodes[ino].addrs[k := 0])];
        CoveredInode(s0, old(logged), s1, logged, S(), logged, ino);
        own := own - {p};
      } else {
        assert 0 !in own;
        assert own - {0} == own;
      }
    }

    method FreeEntry(a: Block, j: nat, ghost keys: set<int>, ghost ino: nat)
      requires |a| == BSIZE && j < NINDIRECT && Shape(S(), sb) && Bits(blocks, sb, keys)
      requires WordAt(a, j) != 0 ==> sb.data <= WordAt(a, j) < sb.size && WordAt(a, j) in keys
      modifies `blocks, `logged
      ensures Shape(S(), sb) && OnlyAt(old(blocks), blocks, sb, 0)
      ensures Bits(blocks, sb, keys - if WordAt(a, j) != 0 then {WordAt(a, j)} else {})
      ensures Covered(old(S()), old(logged), S(), logged, ino)
    {
      CoveredSame(S(), logged, ino);
      if WordAt(a, j) != 0 {
        var ok := Bfree(WordAt(a, j), keys, ino);
        assert ok;
      } else {
        assert keys - {} == keys;
      }
    }

    /** itrunc's loop over the indirect block's entries, and the block itself. */
    method TruncIndirect(ino: nat)
      requires Consistent() && ino < |inodes|
      modifies this
      ensures Consistent() && Untouched(old(S()), S(), ino) && own == Without(old(own), ino)
      ensures inodes[ino].size == old(inodes[ino].size)
      ensures forall v {:trigger Ptr(S(), v)} | UseOk(S(), v) ::
                Ptr(S(), v) == if Tail(v, ino) then 0 else old(Ptr(S(), v))
      ensures Covered(old(S()), old(logged), S(), logged, ino)
    {
      ghost var s0, l0 := S(), logged;
      CoveredSame(s0, l0, ino);
      assert |inodes[ino].addrs| == NDIRECT + 1;
      var ib := inodes[ino].addrs[NDIRECT];
      assert Ptr(s0, Indirect(ino)) == ib;
      if ib != 0 {
        NextEntry(s0, sb, own, ino, 0);
        var a := blocks[ib];
        var j := 0;
        assert own.Keys - Entries(a, 0) == own.Keys;
        while j < NINDIRECT
          invariant 0 <= j <= NINDIRECT && Shape(S(), sb) && inodes == s0.inodes && own == old(own)
          invariant OnlyAt(s0.blocks, blocks, sb, 0) && Bits(blocks, sb, own.Keys - Entries(a, j))
          invariant Covered(s0, l0, S(), logged, ino)
        {
          NextEntry(s0, sb, own, ino, j);
          ghost var s1, l1 := S(), logged;
          FreeEntry(a, j, own.Keys - Entries(a, j), ino);
          CoveredTrans(s0, l0, s1, l1, S(), logged, ino);
          assert own.Keys - Entries(a, j + 1) == own.Keys - Entries(a, j) - if WordAt(a, j) != 0 then {WordAt(a, j)}
                                                                            else {};
          j := j + 1;
        }
        ghost var s2, l2 := S(), logged;
        var ok := Bfree(ib, own.Keys - Entries(a, NINDIRECT), ino);
        assert ok;
        CoveredTrans(s0, l0, s2, l2, S(), logged, ino);
        ghost var s3 := S();
        TailKeys(s0, sb, own, ino);
        DropIndirect(s0, sb, own, blocks, ino);
        inodes := inodes[ino := inodes[ino].(addrs := inodes[ino].addrs[NDIRECT := 0])];
        CoveredInode(s0, l0, s3, logged, S(), logged, ino);
        own := Without(own, ino);
      } else {
        NoTail(s0, sb, own, ino);
      }
    }

    /** itrunc: every block of the inode is freed, once, holes or not; nothing else changes. */
    method Itrunc(ino: nat)
      requires Consistent() && ino < |inodes|
      modifies this
      ensures Consistent() && (old(Filled(S())) ==> Filled(S())) && Untouched(old(S()), S(), ino)
      ensures inodes[ino].size == 0
      ensures forall v {:trigger Ptr(S(), v)} | UseOk(S(), v) && v.ino == ino :: Ptr(S(), v) == 0
      ensures own == map p | p in old(own) && old(own)[p].ino != ino :: old(own)[p]
      ensures Covered(old(S()), old(logged), S(), logged, ino) && sb.inodestart + ino / IPB in logged
    {
      ghost var s0, l0 := S(), logged;
      CoveredSame(s0, l0, ino);
      var i := 0;
      while i < NDIRECT
        invariant 0 <= i <= NDIRECT && Consistent() && Untouched(s0, S(), ino)
        invariant inodes[ino].size == s0.inodes[ino].size && Covered(s0, l0, S(), logged, ino)
        invariant forall l: nat {:trigger Ptr(S(), Data(ino, l))} | l < i :: Ptr(S(), Data(ino, l)) == 0
      {
        ghost var s1, l1 := S(), logged;
        TruncDirect(ino, i);
        UntouchedTrans(s0, s1, S(), ino);
        CoveredTrans(s0, l0, s1, l1, S(), logged, ino);
        i := i + 1;
      }
      ghost var s2, l2 := S(), logged;
      TruncIndirect(ino);
      UntouchedTrans(s0, s2, S(), ino);
      CoveredTrans(s0, l0, s2, l2, S(), logged, ino);
      ghost var s3, l3 := S(), logged;
      SizeApart(s3, sb, own, ino, 0);
      inodes := inodes[ino := inodes[ino].(size := 0)];
      logged := logged + {sb.inodestart + ino / IPB};
      CoveredInode(s0, l0, s3, l3, S(), logged, ino);
      Emptied(s0, old(own), s3, S(), own, sb, ino);
    }
  }

  /** mkfs: a disk of zeroes whose free map marks the blocks before the data. */
  method MakeDisk(sb: Super) returns (disk: seq<Block>)
    requires sb.Ok() && sb.data < BPB
    ensures |disk| == sb.size && Bits(disk, sb, {}) && forall b | 0 <= b < |disk| :: |disk[b]| == BSIZE
  {
    disk := seq(sb.size, _ => Zero());
    forall c: nat
      ensures !BitAt(disk, sb.bmapstart, c)
    {
      ZeroMap(disk, sb.bmapstart, c);
    }
    for i := 0 to sb.data
      invariant |disk| == sb.size && forall b | 0 <= b < |disk| :: |disk[b]| == BSIZE
      invariant forall c: nat {:trigger BitAt(disk, sb.bmapstart, c)} :: BitAt(disk, sb.bmapstart, c) <==> c < i
    {
      ghost var was := disk;
      disk := MarkAt(disk, sb.bmapstart, i, true);
      forall c: nat
        ensures BitAt(disk, sb.bmapstart, c) <==> c < i + 1
      {
        MarkBit(was, sb.bmapstart, i, true, c);
      }
    }
  }

  /** A byte for an empty file, on a disk with one free block, which it takes. */
  method TakeLast(fs: FileSystem, ino: nat, y: int)
    requires fs.Valid() && Space(fs.sb, fs.own) == 1 && ino < |fs.inodes| && fs.inodes[ino].size == 0
    requires Ptr(fs.S(), Data(ino, 0)) == 0
    modifies fs
    ensures fs.Valid() && Space(fs.sb, fs.own) == 0 && At(fs.S(), ino, 0) == y
    ensures SizesBut(old(fs.S()), fs.S(), ino, 1) && Keeps(old(fs.S()), fs.S(), ino)
  {
    ghost var s0, own0 := fs.S(), fs.own;
    assert Blanks(s0, ino, 1, 1) == 0 && Need(s0, ino, 0, 1) == 1;
    var w, sound := fs.Writei(ino, 0, [y], true);
    assert There(fs.S(), ino, 0, 1);
    assert Spacing(s0, own0, fs.S(), fs.own, fs.sb, ino, 0, 1, 1);
    assert Need(fs.S(), ino, 1, 1) == 0;
  }

  /** A byte for a file without blocks, on a disk without a free one: writei returns 1 and the file grows, but the file
      has no block and the byte is in the boot block. */
  method TakeNone(fs: FileSystem, ino: nat, x: int) returns (n: nat)
    requires fs.Valid() && Space(fs.sb, fs.own) == 0 && ino < |fs.inodes| && fs.inodes[ino].size == 0
    requires Ptr(fs.S(), Data(ino, 0)) == 0
    modifies fs
    ensures fs.Consistent() && |fs.inodes| == old(|fs.inodes|) && n == 1 && fs.inodes[ino].size == 1
    ensures Ptr(fs.S(), Data(ino, 0)) == 0 && fs.blocks[0][0] == x
    ensures forall j: nat | j < |fs.inodes| && j != ino :: At(fs.S(), j, 0) == old(At(fs.S(), j, 0))
  {
    ghost var s0 := fs.S();
    assert Blanks(s0, ino, 1, 1) == 0 && Need(s0, ino, 0, 1) == 1;
    var w, sound := fs.Writei(ino, 0, [x], true);
    n := w.n;
    assert Ptr(fs.S(), Data(ino, 0)) == 0;
    assert Missing(fs.S(), ino, 0, 1) == {0};
  }

  /** A byte y for a file, and then a byte x for another, on a disk as mkfs lays it out that has one data block: both
      writes return 1 and both files grow, but the second has no block, and its byte is in the boot block. */
  method FullDisk(y: int, x: int) returns (n: nat, size: nat, addr: int, boot: int, ghost first: int)
    ensures n == 1 && size == 1 && addr == 0 && boot == x && first == y
  {
    var sb := Super(47, 32, 45, 46);
    var disk := MakeDisk(sb);
    var fs := new FileSystem(sb, disk, 2);
    TakeLast(fs, 0, y);
    assert UseOk(fs.S(), Data(1, 0)) && Ptr(fs.S(), Data(1, 0)) == 0;
    n := TakeNone(fs, 1, x);
    size, addr, boot, first := fs.inodes[1].size, fs.inodes[1].addrs[0], fs.blocks[0][0], At(fs.S(), 0, 0);
  }
}
