/** A process's memory as the kernel reaches it: bytes at virtual addresses, copied page by page. */
module UserMemory {
  import opened Lists
  import opened PageTable
  import Bytes

  predicate U(pte: nat) { pte / PTE_U % 2 == 1 }

  lemma FlagBits(ppn: nat, flags: nat)
    requires flags < 1024
    ensures (ppn * 1024 + flags) / PTE_U % 2 == flags / PTE_U % 2
  {
    assert ppn * 1024 + flags == 16 * (64 * ppn + flags / 16) + flags % 16;
    assert (ppn * 1024 + flags) / 16 == 64 * ppn + flags / 16;
    assert (64 * ppn + flags / 16) % 2 == flags / 16 % 2 by {
      assert 64 * ppn + flags / 16 == 2 * (32 * ppn) + flags / 16;
    }
  }

  /** PTE_V, the lowest bit, is not PTE_U. */
  lemma UserBit(ppn: nat, perm: nat)
    requires perm < 1024
    ensures U(MkPte(ppn, perm)) <==> perm / PTE_U % 2 == 1
  {
    FlagBits(ppn, if perm % 2 == 1 then perm else perm + 1);
    assert perm % 2 == 0 ==> (perm + 1) / 16 == perm / 16;
  }

  /** walkaddr: the physical page behind user page v. Physical page 0 counts as none. */
  function UserPage(tables: Tables, r: nat, v: nat): Option<nat> {
    if v < MAXVPN && V(Flat(tables, r, v)) && U(Flat(tables, r, v)) && Ppn(Flat(tables, r, v)) != 0 then
      Some(Ppn(Flat(tables, r, v)))
    else None
  }

  /** An entry that mappages made is a user page exactly if PTE_U was among its permissions. */
  lemma UserEntry(tables: Tables, r: nat, v: nat, p: nat, perm: nat)
    requires v < MAXVPN && perm < 1024 && Flat(tables, r, v) == MkPte(p, perm)
    ensures UserPage(tables, r, v) == if perm / PTE_U % 2 == 1 && p != 0 then Some(p) else None
  {
    UserBit(p, perm);
  }

  /** None of the pages lo..hi was mapped without PTE_U. */
  ghost predicate NoKernelPage(tables: Tables, r: nat, lo: nat, hi: nat) {
    forall v: nat, p: nat, perm: nat {:trigger Flat(tables, r, v), MkPte(p, perm)} |
      lo <= v < hi && v < MAXVPN && perm < 1024 && perm / PTE_U % 2 == 0 :: Flat(tables, r, v) != MkPte(p, perm)
  }

  ghost predicate OwnPage(tables: Tables, data: map<nat, seq<int>>, r: nat, v: nat) {
    var p := UserPage(tables, r, v);
    p.Some? ==> p.value in data && |data[p.value]| == PGSIZE
  }

  ghost predicate Differ(tables: Tables, r: nat, v: nat, w: nat) {
    v != w && UserPage(tables, r, v).Some? && UserPage(tables, r, w).Some? ==>
      UserPage(tables, r, v) != UserPage(tables, r, w)
  }

  /** User pages are whole pages of memory, no two of them the same. */
  ghost predicate Private(tables: Tables, data: map<nat, seq<int>>, r: nat) {
    && (forall v: nat {:trigger OwnPage(tables, data, r, v)} :: OwnPage(tables, data, r, v))
    && (forall v: nat, w: nat {:trigger Differ(tables, r, v, w)} :: Differ(tables, r, v, w))
  }

  /** The byte at address PGSIZE k + o; 0 where no user page is. */
  function Byte(tables: Tables, data: map<nat, seq<int>>, r: nat, x: nat): int {
    var p := UserPage(tables, r, x / PGSIZE);
    if p.Some? && p.value in data && x % PGSIZE < |data[p.value]| then data[p.value][x % PGSIZE] else 0
  }

  /** Bytes x0..x0 + n have become src from t on; all others are as they were. */
  ghost predicate Poked(tables: Tables, data: map<nat, seq<int>>, data': map<nat, seq<int>>, r: nat, x0: nat, n: nat,
                        src: seq<int>, t: nat)
    requires t + n <= |src|
  {
    forall x: nat {:trigger Byte(tables, data', r, x)} ::
      Byte(tables, data', r, x) == if x0 <= x < x0 + n then src[t + (x - x0)] else Byte(tables, data, r, x)
  }

  /** Pages lo..hi are user pages. */
  ghost predicate AllUser(tables: Tables, r: nat, lo: nat, hi: nat) {
    forall v: nat {:trigger UserPage(tables, r, v)} | lo <= v < hi :: UserPage(tables, r, v).Some?
  }

  lemma UserNotKernel(tables: Tables, r: nat, lo: nat, hi: nat)
    requires AllUser(tables, r, lo, hi)
    ensures NoKernelPage(tables, r, lo, hi)
  {
    forall v: nat, p: nat, perm: nat | lo <= v < hi && v < MAXVPN && perm < 1024 && perm / PTE_U % 2 == 0
      ensures Flat(tables, r, v) != MkPte(p, perm)
    {
      assert UserPage(tables, r, v).Some?;
      if Flat(tables, r, v) == MkPte(p, perm) {
        UserEntry(tables, r, v, p, perm);
      }
    }
  }

  /** The trampoline and the trap frame, as proc_pagetable maps them, are out of a user's reach. */
  lemma KernelPages(tables: Tables, r: nat, lo: nat, hi: nat, v: nat, p: nat)
    requires lo <= v < hi && v < MAXVPN
    requires Flat(tables, r, v) == MkPte(p, PTE_R + PTE_X) || Flat(tables, r, v) == MkPte(p, PTE_R + PTE_W)
    ensures !NoKernelPage(tables, r, lo, hi) && !AllUser(tables, r, lo, hi)
  {
    assert PTE_R + PTE_W < 1024 && (PTE_R + PTE_W) / PTE_U % 2 == 0;
    assert PTE_R + PTE_X < 1024 && (PTE_R + PTE_X) / PTE_U % 2 == 0;
    if AllUser(tables, r, lo, hi) {
      UserNotKernel(tables, r, lo, hi);
    }
  }

  /** The page after the last that n bytes from x on reach. */
  function EndPage(x: nat, n: nat): nat { if n == 0 then x / PGSIZE else (x + n - 1) / PGSIZE + 1 }

  lemma Page(x: nat, k: nat, o: nat)
    requires x == PGSIZE * k + o && o < PGSIZE
    ensures x / PGSIZE == k && x % PGSIZE == o
  {
  }

  /** Writing into one page changes those bytes alone. */
  lemma PokePage(tables: Tables, data: map<nat, seq<int>>, r: nat, k: nat, o: nat, src: seq<int>, t: nat, n: nat,
                 p: nat)
    requires Private(tables, data, r) && UserPage(tables, r, k) == Some(p) && o + n <= PGSIZE && t + n <= |src|
    ensures p in data && |data[p]| == PGSIZE
    ensures var data' := data[p := Bytes.Patch(data[p], o, src, t, n)];
            Private(tables, data', r) && Poked(tables, data, data', r, PGSIZE * k + o, n, src, t)
  {
    assert OwnPage(tables, data, r, k);
    var data' := data[p := Bytes.Patch(data[p], o, src, t, n)];
    forall v: nat
      ensures OwnPage(tables, data', r, v)
    {
      assert OwnPage(tables, data, r, v);
    }
    forall x: nat
      ensures Byte(tables, data', r, x) ==
              if PGSIZE * k + o <= x < PGSIZE * k + o + n then src[t + (x - (PGSIZE * k + o))]
              else Byte(tables, data, r, x)
    {
      var v, y := x / PGSIZE, x % PGSIZE;
      assert x == PGSIZE * v + y;
      assert Differ(tables, r, k, v) && OwnPage(tables, data, r, v);
    }
  }

  lemma PokedMore(tables: Tables, data0: map<nat, seq<int>>, data: map<nat, seq<int>>, data': map<nat, seq<int>>,
                  r: nat,
                  x0: nat, tot: nat, src: seq<int>, n: nat)
    requires tot + n <= |src| && Poked(tables, data0, data, r, x0, tot, src, 0)
    requires Poked(tables, data, data', r, x0 + tot, n, src, tot)
    ensures Poked(tables, data0, data', r, x0, tot + n, src, 0)
  {
    forall x: nat
      ensures Byte(tables, data', r, x) == if x0 <= x < x0 + (tot + n) then src[x - x0] else Byte(tables, data0, r, x)
    {
      assert Byte(tables, data, r, x) == if x0 <= x < x0 + tot then src[x - x0] else Byte(tables, data0, r, x);
    }
  }

  /** walkaddr. */
  method Walkaddr(m: Memory, root: nat, v: nat) returns (p: Option<nat>)
    requires m.Valid() && IsRoot(m.tables, m.node, root)
    modifies m`tables, m`free, m`node, m`refused
    ensures unchanged(m) && p == UserPage(m.tables, root, v)
  {
    if v >= MAXVPN {
      return None;
    }
    var t := m.Walk(root, v, false);
    if t.None? {
      return None;
    }
    SetLeafFlat(m.tables, m.node, root, v, 0);
    var pte := m.tables[t.value][Split(v).i0];
    if !V(pte) || !U(pte) || Ppn(pte) == 0 {
      return None;
    }
    p := Some(Ppn(pte));
  }

  lemma SameKeys(tables: Tables, data: map<nat, seq<int>>, free: set<nat>, pages: set<nat>, data': map<nat, seq<int>>)
    requires Partition(tables, data, free, pages) && data'.Keys == data.Keys
    ensures Partition(tables, data', free, pages)
  {
    forall p: nat
      ensures Uses(tables, data', free, p) == if p in pages then 1 else 0
    {
      assert Uses(tables, data, free, p) == if p in pages then 1 else 0;
    }
  }

  /** A round of copyout: up to the end of page k. 0 if it is no user page. */
  method OutRound(m: Memory, root: nat, k: nat, o: nat, src: seq<int>, tot: nat, ghost x0: nat,
                  ghost data0: map<nat, seq<int>>) returns (n: nat)
    requires m.Valid() && IsRoot(m.tables, m.node, root) && Private(m.tables, m.data, root) && o < PGSIZE && tot < |src|
    requires x0 + tot == PGSIZE * k + o
    requires Poked(m.tables, data0, m.data, root, x0, tot, src, 0) && m.data.Keys == data0.Keys
    modifies m
    ensures m.Valid() && unchanged(m`tables, m`free, m`node) && Private(m.tables, m.data, root)
    ensures m.data.Keys == data0.Keys
    ensures n == 0 ==> UserPage(m.tables, root, k).None? && m.data == old(m.data)
    ensures n != 0 ==>
              UserPage(m.tables, root, k).Some? && n == (if |src| - tot < PGSIZE - o then |src| - tot else PGSIZE - o)
    ensures n != 0 ==> Poked(m.tables, data0, m.data, root, x0, tot + n, src, 0)
  {
    var p := Walkaddr(m, root, k);
    if p.None? {
      return 0;
    }
    n := if |src| - tot < PGSIZE - o then |src| - tot else PGSIZE - o;
    PokePage(m.tables, m.data, root, k, o, src, tot, n, p.value);
    ghost var data1, data2 := m.data, m.data[p.value := Bytes.Patch(m.data[p.value], o, src, tot, n)];
    PokedMore(m.tables, data0, data1, data2, root, x0, tot, src, n);
    SameKeys(m.tables, data1, m.free, m.pages, data2);
    m.data := m.data[p.value := Bytes.Patch(m.data[p.value], o, src, tot, n)];
  }

  /** Where a round from offset o of page k leaves the copy of n0 bytes from x0 on. */
  lemma NextPage(x0: nat, n0: nat, tot: nat, k: nat, o: nat, n: nat)
    requires x0 + tot == PGSIZE * k + o && o < PGSIZE && tot < n0
    requires n == (if n0 - tot < PGSIZE - o then n0 - tot else PGSIZE - o)
    ensures x0 / PGSIZE <= k < EndPage(x0, n0)
    ensures if tot + n == n0 then k + 1 == EndPage(x0, n0) else x0 + (tot + n) == PGSIZE * (k + 1)
  {
    var last := x0 + n0 - 1;
    assert last / PGSIZE >= k && x0 / PGSIZE <= k;
    if tot + n == n0 {
      Page(last, k, o + n - 1);
    }
  }

  /** copyout: all of src, or up to the first page that is not the user's. */
  method Copyout(m: Memory, root: nat, x0: nat, src: seq<int>) returns (ok: bool, ghost done: nat)
    requires m.Valid() && IsRoot(m.tables, m.node, root) && Private(m.tables, m.data, root)
    modifies m
    ensures m.Valid() && unchanged(m`tables, m`free, m`node) && Private(m.tables, m.data, root)
    ensures m.data.Keys == old(m.data.Keys)
    ensures ok <==> AllUser(m.tables, root, x0 / PGSIZE, EndPage(x0, |src|))
    ensures done <= |src| && (ok ==> done == |src|) && Poked(m.tables, old(m.data), m.data, root, x0, done, src, 0)
    ensures !ok ==> UserPage(m.tables, root, (x0 + done) / PGSIZE).None?
    ensures ok ==> NoKernelPage(m.tables, root, x0 / PGSIZE, EndPage(x0, |src|))
  {
    var tot: nat, k: nat, o: nat := 0, x0 / PGSIZE, x0 % PGSIZE;
    ghost var data0 := m.data;
    done := 0;
    while tot < |src|
      invariant tot <= |src| && done == tot && o < PGSIZE
      invariant m.Valid() && unchanged(m`tables, m`free, m`node) && Private(m.tables, m.data, root)
      invariant m.data.Keys == data0.Keys
      invariant Poked(m.tables, data0, m.data, root, x0, tot, src, 0) && AllUser(m.tables, root, x0 / PGSIZE, k)
      invariant if tot < |src| then x0 + tot == PGSIZE * k + o else k == EndPage(x0, |src|)
      decreases |src| - tot
    {
      var n := OutRound(m, root, k, o, src, tot, x0, data0);
      NextPage(x0, |src|, tot, k, o, if |src| - tot < PGSIZE - o then |src| - tot else PGSIZE - o);
      if n == 0 {
        Page(x0 + tot, k, o);
        return false, done;
      }
      tot, k, o := tot + n, k + 1, 0;
      done := tot;
    }
    UserNotKernel(m.tables, root, x0 / PGSIZE, EndPage(x0, |src|));
    ok := true;
  }

  /** n bytes from x on. */
  ghost function Peeked(tables: Tables, data: map<nat, seq<int>>, r: nat, x: nat, n: nat): (s: seq<int>)
    ensures |s| == n
  {
    seq(n, t requires 0 <= t < n => Byte(tables, data, r, x + t))
  }

  lemma PeekedMore(tables: Tables, data: map<nat, seq<int>>, r: nat, x: nat, n: nat, k: nat, o: nat, m: nat, p: nat)
    requires Private(tables, data, r) && UserPage(tables, r, k) == Some(p) && o + m <= PGSIZE && x + n == PGSIZE * k + o
    ensures p in data && |data[p]| == PGSIZE
    ensures Peeked(tables, data, r, x, n) + data[p][o..o + m] == Peeked(tables, data, r, x, n + m)
  {
    assert OwnPage(tables, data, r, k);
    var l, s := Peeked(tables, data, r, x, n) + data[p][o..o + m], Peeked(tables, data, r, x, n + m);
    forall t: nat | t < n + m
      ensures l[t] == s[t]
    {
      if t >= n {
        Page(x + t, k, o + (t - n));
      }
    }
  }

  /** copyin: the bytes there, if every page of the range is the user's. */
  method Copyin(m: Memory, root: nat, x0: nat, len: nat) returns (ok: bool, dst: seq<int>)
    requires m.Valid() && IsRoot(m.tables, m.node, root) && Private(m.tables, m.data, root)
    modifies m`tables, m`free, m`node, m`refused
    ensures unchanged(m)
    ensures ok <==> AllUser(m.tables, root, x0 / PGSIZE, EndPage(x0, len))
    ensures ok ==> dst == Peeked(m.tables, m.data, root, x0, len)
    ensures ok ==> NoKernelPage(m.tables, root, x0 / PGSIZE, EndPage(x0, len))
  {
    var k: nat, o: nat := x0 / PGSIZE, x0 % PGSIZE;
    dst := [];
    while |dst| < len
      invariant |dst| <= len && o < PGSIZE && unchanged(m)
      invariant dst == Peeked(m.tables, m.data, root, x0, |dst|) && AllUser(m.tables, root, x0 / PGSIZE, k)
      invariant if |dst| < len then x0 + |dst| == PGSIZE * k + o else k == EndPage(x0, len)
      decreases len - |dst|
    {
      var p := Walkaddr(m, root, k);
      var n := if len - |dst| < PGSIZE - o then len - |dst| else PGSIZE - o;
      NextPage(x0, len, |dst|, k, o, n);
      if p.None? {
        return false, dst;
      }
      PeekedMore(m.tables, m.data, root, x0, |dst|, k, o, n, p.value);
      dst, k, o := dst + m.data[p.value][o..o + n], k + 1, 0;
    }
    UserNotKernel(m.tables, root, x0 / PGSIZE, EndPage(x0, len));
    ok := true;
  }

  /** What copyout put into a range, copyin finds there. */
  lemma OutThenIn(tables: Tables, data: map<nat, seq<int>>, data': map<nat, seq<int>>, r: nat, x: nat, src: seq<int>)
    requires Poked(tables, data, data', r, x, |src|, src, 0)
    ensures Peeked(tables, data', r, x, |src|) == src
  {
    forall t: nat | t < |src|
      ensures Peeked(tables, data', r, x, |src|)[t] == src[t]
    {
      assert Byte(tables, data', r, x + t) == src[t];
    }
  }

  /** There is a string of n bytes before its NUL at x. */
  ghost predicate StringAt(tables: Tables, data: map<nat, seq<int>>, r: nat, x: nat, n: nat) {
    && AllUser(tables, r, x / PGSIZE, (x + n) / PGSIZE + 1) && Byte(tables, data, r, x + n) == 0
    && forall y: nat {:trigger Byte(tables, data, r, y)} | x <= y < x + n :: Byte(tables, data, r, y) != 0
  }

  /** copyinstr's inner loop: copy from page p until a NUL or n bytes. */
  method CopyChars(page: seq<int>, o: nat, n: nat) returns (bytes: seq<int>, got: bool)
    requires o + n <= |page|
    ensures |bytes| <= n && bytes == page[o..o + |bytes|] && 0 !in bytes
    ensures if got then |bytes| < n && page[o + |bytes|] == 0 else |bytes| == n
  {
    bytes, got := [], false;
    while |bytes| < n
      invariant |bytes| <= n && bytes == page[o..o + |bytes|] && 0 !in bytes
      decreases n - |bytes|
    {
      if page[o + |bytes|] == 0 {
        got := true;
        break;
      }
      bytes := bytes + [page[o + |bytes|]];
    }
  }

  lemma PeekedAt(tables: Tables, data: map<nat, seq<int>>, r: nat, x: nat, s: seq<int>, t: nat)
    requires s == Peeked(tables, data, r, x, |s|) && 0 !in s && x <= t < x + |s|
    ensures Byte(tables, data, r, t) != 0
  {
    assert s[t - x] in s;
  }

  lemma Found(tables: Tables, data: map<nat, seq<int>>, r: nat, x: nat, s: seq<int>, k: nat, o: nat, p: nat)
    requires s == Peeked(tables, data, r, x, |s|) && 0 !in s && x + |s| == PGSIZE * k + o && o < PGSIZE
    requires AllUser(tables, r, x / PGSIZE, k) && UserPage(tables, r, k) == Some(p) && p in data && |data[p]| == PGSIZE
    requires data[p][o] == 0
    ensures StringAt(tables, data, r, x, |s|)
  {
    Page(x + |s|, k, o);
    forall y: nat | x <= y < x + |s|
      ensures Byte(tables, data, r, y) != 0
    {
      PeekedAt(tables, data, r, x, s, y);
    }
  }

  /** A string cannot end before the bytes seen, nor reach past a page that is not the user's. */
  lemma NoString(tables: Tables, data: map<nat, seq<int>>, r: nat, x: nat, s: seq<int>, k: nat, o: nat)
    requires s == Peeked(tables, data, r, x, |s|) && 0 !in s && x + |s| == PGSIZE * k + o && o < PGSIZE
    requires UserPage(tables, r, k).None?
    ensures forall n: nat :: !StringAt(tables, data, r, x, n)
  {
    Page(x + |s|, k, o);
    forall n: nat
      ensures !StringAt(tables, data, r, x, n)
    {
      if n < |s| {
        PeekedAt(tables, data, r, x, s, x + n);
      } else {
        assert x / PGSIZE <= k <= (x + n) / PGSIZE;
      }
    }
  }

  lemma TooLong(tables: Tables, data: map<nat, seq<int>>, r: nat, x: nat, s: seq<int>)
    requires s == Peeked(tables, data, r, x, |s|) && 0 !in s
    ensures forall n: nat | n < |s| :: !StringAt(tables, data, r, x, n)
  {
    forall n: nat | n < |s|
      ensures !StringAt(tables, data, r, x, n)
    {
      PeekedAt(tables, data, r, x, s, x + n);
    }
  }

  /** copyinstr: a string is found just when one of fewer than max bytes lies in user pages. */
  method Copyinstr(m: Memory, root: nat, x0: nat, max: nat) returns (ok: bool, dst: seq<int>)
    requires m.Valid() && IsRoot(m.tables, m.node, root) && Private(m.tables, m.data, root)
    modifies m`tables, m`free, m`node, m`refused
    ensures unchanged(m)
    ensures ok <==> exists n: nat :: n < max && StringAt(m.tables, m.data, root, x0, n)
    ensures ok ==> StringAt(m.tables, m.data, root, x0, |dst|) && dst == Peeked(m.tables, m.data, root, x0, |dst|)
    ensures ok ==> NoKernelPage(m.tables, root, x0 / PGSIZE, (x0 + |dst|) / PGSIZE + 1)
  {
    var k: nat, o: nat := x0 / PGSIZE, x0 % PGSIZE;
    dst := [];
    while |dst| < max
      invariant |dst| <= max && o < PGSIZE && unchanged(m) && 0 !in dst
      invariant dst == Peeked(m.tables, m.data, root, x0, |dst|) && AllUser(m.tables, root, x0 / PGSIZE, k)
      invariant |dst| < max ==> x0 + |dst| == PGSIZE * k + o
      decreases max - |dst|
    {
      var p := Walkaddr(m, root, k);
      var n := if max - |dst| < PGSIZE - o then max - |dst| else PGSIZE - o;
      NextPage(x0, max, |dst|, k, o, n);
      if p.None? {
        NoString(m.tables, m.data, root, x0, dst, k, o);
        return false, dst;
      }
      assert OwnPage(m.tables, m.data, root, k);
      var bytes, got := CopyChars(m.data[p.value], o, n);
      PeekedMore(m.tables, m.data, root, x0, |dst|, k, o, |bytes|, p.value);
      dst := dst + bytes;
      if got {
        Found(m.tables, m.data, root, x0, dst, k, o + |bytes|, p.value);
        UserNotKernel(m.tables, root, x0 / PGSIZE, (x0 + |dst|) / PGSIZE + 1);
        return true, dst;
      }
      k, o := k + 1, 0;
    }
    TooLong(m.tables, m.data, root, x0, dst);
    ok := false;
  }

  // ---- Memory that uvmalloc and uvmcopy have made

  lemma InPages(x: nat, lo: nat, n: nat)
    requires lo * PGSIZE <= x < (lo + n) * PGSIZE
    ensures lo <= x / PGSIZE < lo + n
  {
  }

  /** The pages that uvmalloc has added are the user's, and zero. */
  lemma GrownUser(tables0: Tables, node0: map<nat, Node>, data0: map<nat, seq<int>>, tables: Tables,
                  data: map<nat, seq<int>>, r: nat, lo: nat, n: nat)
    requires lo + n <= MAXVPN && Grown(tables0, node0, data0, tables, data, r, lo, Fresh(n)) && 0 !in data
    ensures AllUser(tables, r, lo, lo + n)
    ensures forall x: nat {:trigger Byte(tables, data, r, x)} | lo * PGSIZE <= x < (lo + n) * PGSIZE ::
              Byte(tables, data, r, x) == 0
  {
    forall v: nat | lo <= v < lo + n
      ensures UserPage(tables, r, v) == Some(Ppn(Flat(tables, r, v)))
    {
      assert NewPage(tables, data, data0, r, v, Fresh(n)[v - lo]);
      UserEntry(tables, r, v, Ppn(Flat(tables, r, v)), PTE_W + PTE_X + PTE_R + PTE_U);
    }
    forall x: nat | lo * PGSIZE <= x < (lo + n) * PGSIZE
      ensures Byte(tables, data, r, x) == 0
    {
      InPages(x, lo, n);
      assert NewPage(tables, data, data0, r, x / PGSIZE, Fresh(n)[x / PGSIZE - lo]);
    }
  }

  /** So copyout succeeds on every range within them. */
  lemma GrownReached(tables0: Tables, node0: map<nat, Node>, data0: map<nat, seq<int>>, tables: Tables,
                     data: map<nat, seq<int>>, r: nat, lo: nat, n: nat, x: nat, len: nat)
    requires lo + n <= MAXVPN && Grown(tables0, node0, data0, tables, data, r, lo, Fresh(n)) && 0 !in data
    requires lo * PGSIZE <= x && x + len <= (lo + n) * PGSIZE
    ensures AllUser(tables, r, x / PGSIZE, EndPage(x, len))
  {
    GrownUser(tables0, node0, data0, tables, data, r, lo, n);
    if len > 0 {
      InPages(x, lo, n);
      InPages(x + len - 1, lo, n);
    }
  }

  /** A page mapped with another's flags may be reached exactly if the other may. */
  lemma SameReach(tables0: Tables, tables: Tables, parent: nat, child: nat, v: nat, p: nat)
    requires v < MAXVPN && V(Flat(tables0, parent, v)) && Ppn(Flat(tables0, parent, v)) != 0 && p != 0
    requires Flat(tables, child, v) == MkPte(p, Flags(Flat(tables0, parent, v)))
    ensures UserPage(tables, child, v).Some? <==> UserPage(tables0, parent, v).Some?
    ensures UserPage(tables, child, v).Some? ==> UserPage(tables, child, v).value == p
  {
    var pte0 := Flat(tables0, parent, v);
    UserEntry(tables, child, v, p, Flags(pte0));
    FlagBits(Ppn(pte0), Flags(pte0));
  }

  lemma CopiedPage(tables0: Tables, node0: map<nat, Node>, data0: map<nat, seq<int>>, tables: Tables,
                   data: map<nat, seq<int>>, parent: nat, child: nat, n: nat, v: nat)
    requires n <= MAXVPN && Grown(tables0, node0, data0, tables, data, child, 0, Copies(tables0, data0, parent, n))
    requires Readable(tables0, data0.Keys, parent, n) && AllThere(tables0, parent, n) && v < n
    ensures var pte, pte0 := Flat(tables, child, v), Flat(tables0, parent, v);
            && V(pte0) && pte == MkPte(Ppn(pte), Flags(pte0))
            && Ppn(pte) in data && Ppn(pte0) in data0 && data[Ppn(pte)] == data0[Ppn(pte0)]
  {
    assert V(Flat(tables0, parent, v)) && Mapped(Flat(tables0, parent, v));
    assert NewPage(tables, data, data0, child, v, Copies(tables0, data0, parent, n)[v]);
  }

  /** A child that uvmcopy has made has the parent's bytes, and may reach the same pages. */
  lemma CopiedUser(tables0: Tables, node0: map<nat, Node>, data0: map<nat, seq<int>>, tables: Tables,
                   data: map<nat, seq<int>>, parent: nat, child: nat, n: nat, x: nat)
    requires n <= MAXVPN && Grown(tables0, node0, data0, tables, data, child, 0, Copies(tables0, data0, parent, n))
    requires Readable(tables0, data0.Keys, parent, n) && AllThere(tables0, parent, n) && 0 !in data && 0 !in data0
    requires x < n * PGSIZE
    ensures Byte(tables, data, child, x) == Byte(tables0, data0, parent, x)
    ensures UserPage(tables, child, x / PGSIZE).Some? <==> UserPage(tables0, parent, x / PGSIZE).Some?
  {
    InPages(x, 0, n);
    var v := x / PGSIZE;
    CopiedPage(tables0, node0, data0, tables, data, parent, child, n, v);
    SameReach(tables0, tables, parent, child, v, Ppn(Flat(tables, child, v)));
  }
}
