/** Sv39 page tables: three-level trees of 512-entry pages, seen as flat maps from virtual pages. */
module PageTable {
  import opened Folding
  import opened Lists

  const ENTRIES: nat := 512
  const PGSIZE: nat := 4096

  /** Virtual pages below MAXVA. */
  const MAXVPN: nat := 0x400_0000

  /** Root entries that serve them. */
  const TOPS: nat := 256

  // ---- Page-table entries: a physical page number above ten flag bits

  const PTE_R: nat := 2
  const PTE_W: nat := 4
  const PTE_X: nat := 8
  const PTE_U: nat := 16

  predicate V(pte: nat) { pte % 2 == 1 }

  function Ppn(pte: nat): nat { pte / 1024 }
  function Flags(pte: nat): nat { pte % 1024 }

  lemma Fields(ppn: nat, flags: nat)
    requires flags < 1024
    ensures (ppn * 1024 + flags) / 1024 == ppn && (ppn * 1024 + flags) % 1024 == flags
    ensures (ppn * 1024 + flags) % 2 == flags % 2
  {
    assert ppn * 1024 + flags == 2 * (ppn * 512 + flags / 2) + flags % 2;
  }

  /** PA2PTE(pa) | perm | PTE_V. */
  function MkPte(ppn: nat, perm: nat): (pte: nat)
    requires perm < 1024
    ensures V(pte) && Ppn(pte) == ppn && Flags(pte) == if perm % 2 == 1 then perm else perm + 1
  {
    var flags := if perm % 2 == 1 then perm else perm + 1;
    Fields(ppn, flags);
    ppn * 1024 + flags
  }

  // ---- Virtual pages and their index triples

  datatype Vpn = Vpn(i2: nat, i1: nat, i0: nat) {
    predicate Ok() { i2 < ENTRIES && i1 < ENTRIES && i0 < ENTRIES }
  }

  /** PX(2, va), PX(1, va), PX(0, va). */
  function Split(v: nat): (r: Vpn)
    requires v < MAXVPN
    ensures r.Ok() && r.i2 < TOPS
  {
    Vpn(v / 262144 % 512, v / 512 % 512, v % 512)
  }

  lemma Digits(v: nat)
    requires v < MAXVPN
    ensures v == 262144 * Split(v).i2 + 512 * Split(v).i1 + Split(v).i0
  {
    var q := v / 512;
    assert v == 512 * q + v % 512 && q == 512 * (q / 512) + q % 512;
    assert q / 512 == v / 262144 < 512;
  }

  /** Distinct pages have distinct index triples. */
  lemma SplitInjective(v: nat, w: nat)
    requires v < MAXVPN && w < MAXVPN && Split(v) == Split(w)
    ensures v == w
  {
    Digits(v);
    Digits(w);
  }

  // ---- The tree

  /** The place of a page-table page: which root it serves, and the indices that lead to it. */
  datatype Node = Root(r: nat) | Mid(r: nat, i2: nat) | Leaf(r: nat, i2: nat, i1: nat)

  type Tables = map<nat, seq<nat>>

  function Put(tables: Tables, t: nat, i: nat, pte: nat): (r: Tables)
    requires t in tables && i < |tables[t]|
    ensures r.Keys == tables.Keys && |r[t]| == |tables[t]|
  {
    var page: seq<nat> := tables[t][..i] + [pte] + tables[t][i + 1..];
    tables[t := page]
  }

  function Child(tables: Tables, t: nat, i: nat): Option<nat> {
    if t in tables && i < |tables[t]| && V(tables[t][i]) then Some(Ppn(tables[t][i])) else None
  }

  ghost predicate Leads(tables: Tables, node: map<nat, Node>, c: Option<nat>, place: Node) {
    c.Some? ==> c.value in tables && c.value in node && node[c.value] == place
  }

  /** Entry i of page t has no flag but PTE_V, if that. */
  predicate Bare(tables: Tables, t: nat, i: nat)
    requires t in tables
  {
    i < |tables[t]| && V(tables[t][i]) ==> Flags(tables[t][i]) == 1
  }

  /** An entry above the leaf level is invalid, or has no other flag and leads to the page with its own place. */
  ghost predicate EntryOk(tables: Tables, node: map<nat, Node>, t: nat, i: nat)
    requires t in tables && t in node
  {
    match node[t]
    case Root(r) => Leads(tables, node, Child(tables, t, i), Mid(r, i)) && Bare(tables, t, i)
    case Mid(r, i2) => Leads(tables, node, Child(tables, t, i), Leaf(r, i2, i)) && Bare(tables, t, i)
    case Leaf(_, _, _) => true
  }

  function LeafTable(tables: Tables, r: nat, i2: nat, i1: nat): Option<nat> {
    var m := Child(tables, r, i2);
    if m.None? then None else Child(tables, m.value, i1)
  }

  /** A page below the root is the one its place's entry leads to. */
  ghost predicate PlaceOk(tables: Tables, node: map<nat, Node>, t: nat)
    requires t in tables && t in node
  {
    match node[t]
    case Root(r) => r == t
    case Mid(r, i2) => i2 < TOPS && r in tables && r in node && node[r] == Root(r) && Child(tables, r, i2) == Some(t)
    case Leaf(r, i2, i1) => i2 < TOPS && i1 < ENTRIES && LeafTable(tables, r, i2, i1) == Some(t)
                              && r in tables && r in node && node[r] == Root(r)
  }

  /** A forest: every page has its place, no page is reached twice. */
  ghost predicate Forest(tables: Tables, node: map<nat, Node>) {
    && tables.Keys == node.Keys
    && (forall t {:trigger tables[t]} | t in tables :: |tables[t]| == ENTRIES)
    && (forall t, i: nat {:trigger EntryOk(tables, node, t, i)} | t in tables && i < ENTRIES ::
         EntryOk(tables, node, t, i))
    && (forall t {:trigger PlaceOk(tables, node, t)} | t in tables :: PlaceOk(tables, node, t))
  }

  ghost predicate IsRoot(tables: Tables, node: map<nat, Node>, r: nat) {
    r in tables && r in node && node[r] == Root(r)
  }

  /** walk without allocation, then the entry itself; 0 if some level is missing. */
  function Lookup(tables: Tables, r: nat, a: Vpn): nat {
    var t := LeafTable(tables, r, a.i2, a.i1);
    if t.Some? && t.value in tables && a.i0 < |tables[t.value]| then tables[t.value][a.i0] else 0
  }

  /** The flat map a table stands for. */
  function Flat(tables: Tables, r: nat, v: nat): nat
    requires v < MAXVPN
  {
    Lookup(tables, r, Split(v))
  }

  // ---- One write to the tree

  /** A leaf page belongs to one root and one pair of upper indices. */
  lemma LeafPlace(tables: Tables, node: map<nat, Node>, r: nat, i2: nat, i1: nat)
    requires Forest(tables, node) && IsRoot(tables, node, r) && i2 < ENTRIES && i1 < ENTRIES
    ensures var m := Child(tables, r, i2);
            && (m.Some? ==> m.value in tables && node[m.value] == Mid(r, i2))
            && (LeafTable(tables, r, i2, i1).Some? ==>
                  LeafTable(tables, r, i2, i1).value in tables
                    && node[LeafTable(tables, r, i2, i1).value] == Leaf(r, i2, i1))
  {
    assert EntryOk(tables, node, r, i2);
    var m := Child(tables, r, i2);
    if m.Some? {
      assert EntryOk(tables, node, m.value, i1);
    }
  }

  lemma LeafWriteForest(tables: Tables, node: map<nat, Node>, t: nat, i: nat, pte: nat)
    requires Forest(tables, node) && t in tables && node[t].Leaf? && i < ENTRIES && |tables[t]| == ENTRIES
    ensures Forest(Put(tables, t, i, pte), node)
  {
    var tables' := Put(tables, t, i, pte);
    assert forall u, j: nat | u in tables && u != t :: Child(tables', u, j) == Child(tables, u, j);
    forall u, j: nat | u in tables' && j < ENTRIES
      ensures EntryOk(tables', node, u, j)
    {
      assert EntryOk(tables, node, u, j);
    }
    forall u | u in tables'
      ensures PlaceOk(tables', node, u)
    {
      assert PlaceOk(tables, node, u);
      if node[u].Leaf? {
        LeafPlace(tables, node, node[u].r, node[u].i2, node[u].i1);
      }
    }
  }

  /** Writing a leaf entry changes the flat map of one root at one page. */
  lemma SetLeaf(tables: Tables, node: map<nat, Node>, r: nat, a: Vpn, pte: nat)
    requires Forest(tables, node) && IsRoot(tables, node, r) && a.Ok() && LeafTable(tables, r, a.i2, a.i1).Some?
    ensures var t := LeafTable(tables, r, a.i2, a.i1).value;
            && t in tables && |tables[t]| == ENTRIES
            && var tables' := Put(tables, t, a.i0, pte);
               && Forest(tables', node)
               && forall r', a': Vpn | IsRoot(tables, node, r') && a'.Ok() ::
                    Lookup(tables', r', a') == if r' == r && a' == a then pte else Lookup(tables, r', a')
  {
    LeafPlace(tables, node, r, a.i2, a.i1);
    var t := LeafTable(tables, r, a.i2, a.i1).value;
    var tables' := Put(tables, t, a.i0, pte);
    LeafWriteForest(tables, node, t, a.i0, pte);
    forall r', a': Vpn | IsRoot(tables, node, r') && a'.Ok()
      ensures Lookup(tables', r', a') == if r' == r && a' == a then pte else Lookup(tables, r', a')
    {
      LeafPlace(tables, node, r', a'.i2, a'.i1);
      assert LeafTable(tables', r', a'.i2, a'.i1) == LeafTable(tables, r', a'.i2, a'.i1);
    }
  }

  function ZeroPage(): (z: seq<nat>)
    ensures |z| == ENTRIES && forall i | 0 <= i < ENTRIES :: z[i] == 0
  {
    seq(ENTRIES, _ => 0)
  }

  /** walk's allocation: a zeroed page c hung on entry i of page t. */
  function Graft(tables: Tables, t: nat, i: nat, c: nat): (r: Tables)
    requires t in tables && i < |tables[t]| && c !in tables
    ensures r.Keys == tables.Keys + {c}
  {
    Put(tables, t, i, MkPte(c, 0))[c := ZeroPage()]
  }

  ghost function ChildPlace(place: Node, i: nat): Node
    requires !place.Leaf?
  {
    if place.Root? then Mid(place.r, i) else Leaf(place.r, place.i2, i)
  }

  lemma GraftChild(tables: Tables, node: map<nat, Node>, t: nat, i: nat, c: nat, u: nat, j: nat)
    requires Forest(tables, node) && t in tables && i < ENTRIES && |tables[t]| == ENTRIES && c !in tables
    ensures Child(Graft(tables, t, i, c), u, j) ==
            if u == c then None else if u == t && j == i then Some(c) else Child(tables, u, j)
  {
    if u in tables {
      assert |tables[u]| == ENTRIES;
    }
  }

  lemma GraftPlace(tables: Tables, node: map<nat, Node>, t: nat, i: nat, c: nat, u: nat)
    requires Forest(tables, node) && t in tables && !node[t].Leaf? && i < ENTRIES && |tables[t]| == ENTRIES
    requires (node[t].Root? ==> i < TOPS) && Child(tables, t, i).None? && c !in tables
    requires u in tables + map[c := ZeroPage()]
    ensures PlaceOk(Graft(tables, t, i, c), node[c := ChildPlace(node[t], i)], u)
  {
    assert PlaceOk(tables, node, t);
    if u != c {
      assert PlaceOk(tables, node, u);
    }
    var place := if u == c then ChildPlace(node[t], i) else node[u];
    if !place.Root? {
      GraftChild(tables, node, t, i, c, place.r, place.i2);
      assert IsRoot(tables, node, place.r);
      LeafPlace(tables, node, place.r, place.i2, if place.Leaf? then place.i1 else 0);
      if place.Leaf? {
        var m := Child(tables, place.r, place.i2);
        if m.Some? {
          GraftChild(tables, node, t, i, c, m.value, place.i1);
        }
      }
    }
  }

  lemma GraftForest(tables: Tables, node: map<nat, Node>, t: nat, i: nat, c: nat)
    requires Forest(tables, node) && t in tables && !node[t].Leaf? && i < ENTRIES && |tables[t]| == ENTRIES
    requires (node[t].Root? ==> i < TOPS) && Child(tables, t, i).None? && c !in tables
    ensures Forest(Graft(tables, t, i, c), node[c := ChildPlace(node[t], i)])
  {
    var tables', node' := Graft(tables, t, i, c), node[c := ChildPlace(node[t], i)];
    forall u, j: nat | u in tables' && j < ENTRIES
      ensures EntryOk(tables', node', u, j)
    {
      GraftChild(tables, node, t, i, c, u, j);
      if u != c {
        assert EntryOk(tables, node, u, j);
      }
    }
    forall u | u in tables'
      ensures PlaceOk(tables', node', u)
    {
      GraftPlace(tables, node, t, i, c, u);
    }
  }

  /** Hanging a zeroed page on an invalid entry maps and unmaps nothing. */
  lemma GraftFlat(tables: Tables, node: map<nat, Node>, t: nat, i: nat, c: nat, r: nat, a: Vpn)
    requires Forest(tables, node) && t in tables && !node[t].Leaf? && i < ENTRIES && |tables[t]| == ENTRIES
    requires Child(tables, t, i).None? && c !in tables && IsRoot(tables, node, r) && a.Ok()
    ensures Lookup(Graft(tables, t, i, c), r, a) == Lookup(tables, r, a)
  {
    GraftChild(tables, node, t, i, c, r, a.i2);
    LeafPlace(tables, node, r, a.i2, a.i1);
    var m := Child(tables, r, a.i2);
    if m.Some? {
      GraftChild(tables, node, t, i, c, m.value, a.i1);
    } else {
      GraftChild(tables, node, t, i, c, c, a.i1);
    }
  }

  // ---- Flat maps compared

  /** Every page of every root translates as before. */
  ghost predicate SameFlat(tables: Tables, node: map<nat, Node>, tables': Tables) {
    forall r, v: nat {:trigger Flat(tables', r, v)} | IsRoot(tables, node, r) && v < MAXVPN ::
      Flat(tables', r, v) == Flat(tables, r, v)
  }

  /** Page v of root r now has entry pte; everything else translates as before. */
  ghost predicate FlatPut(tables: Tables, node: map<nat, Node>, tables': Tables, r: nat, v: nat, pte: nat) {
    forall r', w: nat {:trigger Flat(tables', r', w)} | IsRoot(tables, node, r') && w < MAXVPN ::
      Flat(tables', r', w) == if r' == r && w == v then pte else Flat(tables, r', w)
  }

  ghost predicate Extends(node: map<nat, Node>, node': map<nat, Node>) {
    forall t | t in node :: t in node' && node'[t] == node[t]
  }

  lemma GraftSame(tables: Tables, node: map<nat, Node>, t: nat, i: nat, c: nat)
    requires Forest(tables, node) && t in tables && !node[t].Leaf? && i < ENTRIES && |tables[t]| == ENTRIES
    requires Child(tables, t, i).None? && c !in tables
    ensures SameFlat(tables, node, Graft(tables, t, i, c))
  {
    forall r, v: nat | IsRoot(tables, node, r) && v < MAXVPN
      ensures Flat(Graft(tables, t, i, c), r, v) == Flat(tables, r, v)
    {
      GraftFlat(tables, node, t, i, c, r, Split(v));
    }
  }

  lemma SetLeafFlat(tables: Tables, node: map<nat, Node>, r: nat, v: nat, pte: nat)
    requires Forest(tables, node) && IsRoot(tables, node, r) && v < MAXVPN
    requires LeafTable(tables, r, Split(v).i2, Split(v).i1).Some?
    ensures var t := LeafTable(tables, r, Split(v).i2, Split(v).i1).value;
            && t in tables && |tables[t]| == ENTRIES && tables[t][Split(v).i0] == Flat(tables, r, v)
            && Forest(Put(tables, t, Split(v).i0, pte), node)
            && FlatPut(tables, node, Put(tables, t, Split(v).i0, pte), r, v, pte)
  {
    SetLeaf(tables, node, r, Split(v), pte);
    LeafPlace(tables, node, r, Split(v).i2, Split(v).i1);
    var t := LeafTable(tables, r, Split(v).i2, Split(v).i1).value;
    var tables' := Put(tables, t, Split(v).i0, pte);
    forall r', w: nat | IsRoot(tables, node, r') && w < MAXVPN
      ensures Flat(tables', r', w) == if r' == r && w == v then pte else Flat(tables, r', w)
    {
      if Split(w) == Split(v) {
        SplitInjective(v, w);
      }
    }
  }

  ghost predicate Empty(tables: Tables, r: nat) {
    forall v: nat {:trigger Flat(tables, r, v)} | v < MAXVPN :: Flat(tables, r, v) == 0
  }

  lemma NewRoot(tables: Tables, node: map<nat, Node>, c: nat)
    requires Forest(tables, node) && c !in tables
    ensures Forest(tables[c := ZeroPage()], node[c := Root(c)]) && SameFlat(tables, node, tables[c := ZeroPage()])
    ensures Empty(tables[c := ZeroPage()], c)
  {
    var tables', node' := tables[c := ZeroPage()], node[c := Root(c)];
    forall u, j: nat
      ensures Child(tables', u, j) == Child(tables, u, j)
    {
    }
    forall u, j: nat | u in tables' && j < ENTRIES
      ensures EntryOk(tables', node', u, j)
    {
      assert u in tables ==> EntryOk(tables, node, u, j);
    }
    forall u | u in tables'
      ensures PlaceOk(tables', node', u)
    {
      assert u in tables ==> PlaceOk(tables, node, u);
    }
    forall r, v: nat | IsRoot(tables, node, r) && v < MAXVPN
      ensures Flat(tables', r, v) == Flat(tables, r, v)
    {
      LeafPlace(tables, node, r, Split(v).i2, Split(v).i1);
    }
  }

  // ---- Physical memory

  type Bytes = seq<int>

  /** How many uses a physical page has. */
  ghost function Uses(tables: Tables, data: map<nat, Bytes>, free: set<nat>, p: nat): nat {
    (if p in tables then 1 else 0) + (if p in data then 1 else 0) + (if p in free then 1 else 0)
  }

  /** Every page is a table, user memory or free, and only one of them. */
  ghost predicate Partition(tables: Tables, data: map<nat, Bytes>, free: set<nat>, pages: set<nat>) {
    forall p: nat {:trigger Uses(tables, data, free, p)} ::
      Uses(tables, data, free, p) == if p in pages then 1 else 0
  }

  /** Moving one page from one use to another. */
  lemma Moved(tables: Tables, data: map<nat, Bytes>, free: set<nat>, pages: set<nat>,
              tables': Tables, data': map<nat, Bytes>, free': set<nat>, c: nat)
    requires Partition(tables, data, free, pages)
    requires Uses(tables', data', free', c) == Uses(tables, data, free, c)
    requires forall p | p != c ::
               (p in tables' <==> p in tables) && (p in data' <==> p in data) && (p in free' <==> p in free)
    ensures Partition(tables', data', free', pages)
  {
    forall p: nat
      ensures Uses(tables', data', free', p) == if p in pages then 1 else 0
    {
      assert Uses(tables, data, free, p) == if p in pages then 1 else 0;
    }
  }

  /** PGROUNDUP, in pages. */
  function PgUp(sz: nat): nat { (sz + PGSIZE - 1) / PGSIZE }

  lemma BelowUp(k: nat, sz: nat)
    ensures k * PGSIZE < sz <==> k < PgUp(sz)
  {
  }

  lemma UpMonotone(a: nat, b: nat)
    requires a <= b
    ensures PgUp(a) <= PgUp(b) && (a <= PGSIZE * MAXVPN ==> PgUp(a) <= MAXVPN)
    ensures (b <= PGSIZE * MAXVPN ==> PgUp(b) <= MAXVPN)
  {
  }

  const U64: nat := 0x1_0000_0000_0000_0000

  /** PGROUNDUP of a 64-bit size, in pages. */
  function PgRound(sz: nat): nat { (sz + PGSIZE - 1) % U64 / PGSIZE }

  lemma NoWrap(sz: nat)
    requires (sz < U64 && PgRound(sz) > 0) || sz <= PGSIZE * MAXVPN
    ensures PgRound(sz) == PgUp(sz)
  {
  }

  lemma Aligned(k: nat)
    requires k * PGSIZE < U64
    ensures PgRound(k * PGSIZE) == k
  {
  }

  /** The part of pages lo..hi that is below MAXVA ends here. */
  function Within(lo: nat, hi: nat): nat { if hi <= MAXVPN then hi else if lo <= MAXVPN then MAXVPN else lo }

  /** PGROUNDDOWN(va + size - 1), as a page number. */
  function LastPage(va: nat, size: nat): nat { (va + size + U64 - 1) % U64 / PGSIZE }

  lemma LastOf(first: nat, sz: nat)
    requires first < PgUp(sz) && sz < U64
    ensures first * PGSIZE < sz && first * PGSIZE / PGSIZE == first
    ensures LastPage(first * PGSIZE, sz - first * PGSIZE) == PgUp(sz) - 1
  {
  }

  function ZeroBytes(): (z: Bytes)
    ensures |z| == PGSIZE && forall i | 0 <= i < PGSIZE :: z[i] == 0
  {
    seq(PGSIZE, _ => 0)
  }

  /** What a new page is to hold. */
  datatype Want = Want(perm: nat, content: Bytes)

  /** uvmalloc's pages: zeroed, readable, writable, executable, user. */
  ghost function Fresh(n: nat): (s: seq<Want>)
    ensures |s| == n && forall i | 0 <= i < n :: s[i].perm == PTE_W + PTE_X + PTE_R + PTE_U
    ensures forall i | 0 <= i < n :: |s[i].content| == PGSIZE && forall j | 0 <= j < PGSIZE :: s[i].content[j] == 0
  {
    if n == 0 then [] else Fresh(n - 1) + [Want(PTE_W + PTE_X + PTE_R + PTE_U, ZeroBytes())]
  }

  /** Every page of every root translates as before, an unmapped page possibly by another invalid entry. */
  ghost predicate Restored(tables0: Tables, node0: map<nat, Node>, tables: Tables, r: nat) {
    forall r', w: nat {:trigger Flat(tables, r', w)} | IsRoot(tables0, node0, r') && w < MAXVPN ::
      Flat(tables, r', w) == Flat(tables0, r', w) || (r' == r && !V(Flat(tables0, r, w)) && Flat(tables, r, w) == 0)
  }

  /** Page w of root r is new since data0 and is as wanted. */
  ghost predicate NewPage(tables: Tables, data: map<nat, Bytes>, data0: map<nat, Bytes>, r: nat, w: nat, want: Want)
    requires w < MAXVPN && want.perm < 1024
  {
    var pte := Flat(tables, r, w);
    && pte == MkPte(Ppn(pte), want.perm)
    && Ppn(pte) in data && Ppn(pte) !in data0 && data[Ppn(pte)] == want.content
  }

  /** The physical pages behind virtual pages lo..hi. */
  ghost function LeafPages(tables: Tables, r: nat, lo: nat, hi: nat): (s: set<nat>)
    requires hi <= MAXVPN || hi <= lo
  {
    set k: nat | lo <= k < hi :: Ppn(Flat(tables, r, k))
  }

  /** Since (tables0, node0, data0), root r has gained new pages lo..lo + |wants|, on memory of their own,
      and nothing else has changed. */
  ghost predicate Grown(tables0: Tables, node0: map<nat, Node>, data0: map<nat, Bytes>, tables: Tables,
                        data: map<nat, Bytes>,
                        r: nat, lo: nat, wants: seq<Want>)
    requires lo + |wants| <= MAXVPN || |wants| == 0
    requires forall i | 0 <= i < |wants| :: wants[i].perm < 1024
  {
    var hi := lo + |wants|;
    && (forall r', w: nat {:trigger Flat(tables, r', w)} |
          IsRoot(tables0, node0, r') && w < MAXVPN && !(r' == r && lo <= w < hi) ::
          Flat(tables, r', w) == Flat(tables0, r', w))
    && (forall w: nat {:trigger Flat(tables, r, w)} | lo <= w < hi ::
          !V(Flat(tables0, r, w)) && NewPage(tables, data, data0, r, w, wants[w - lo]))
    && (forall j: nat, k: nat {:trigger Flat(tables, r, j), Flat(tables, r, k)} | lo <= j < k < hi ::
          Ppn(Flat(tables, r, j)) != Ppn(Flat(tables, r, k)))
    && data - LeafPages(tables, r, lo, hi) == data0
  }

  lemma GrownNothing(tables: Tables, node: map<nat, Node>, data: map<nat, Bytes>, r: nat, lo: nat)
    ensures Grown(tables, node, data, tables, data, r, lo, [])
  {
    assert LeafPages(tables, r, lo, lo) == {};
    assert data - {} == data;
  }

  /** A leaf: valid, with some permission or user bit. */
  predicate Mapped(pte: nat) { V(pte) && Flags(pte) != 1 }

  /** A run from first to last ends by page h: after last, at a page that is not a leaf, or at MAXVA. */
  ghost predicate CanRun(tables: Tables, r: nat, first: nat, last: nat, h: nat) {
    && (first <= h <= MAXVPN || h == first)
    && (h < MAXVPN ==> (first <= last && h == last + 1) || !Mapped(Flat(tables, r, h)))
  }

  /** Root r's leaves in lo..hi are distinct pages of `mem`. */
  ghost predicate Owns(tables: Tables, mem: set<nat>, r: nat, lo: nat, hi: nat)
    requires hi <= MAXVPN || hi <= lo
  {
    && (forall k: nat {:trigger Flat(tables, r, k)} | lo <= k < hi && Mapped(Flat(tables, r, k)) ::
         Ppn(Flat(tables, r, k)) in mem)
    && forall j: nat, k: nat {:trigger Flat(tables, r, j), Flat(tables, r, k)} |
         lo <= j < k < hi && Mapped(Flat(tables, r, j)) && Mapped(Flat(tables, r, k)) ::
         Ppn(Flat(tables, r, j)) != Ppn(Flat(tables, r, k))
  }

  lemma SameRun(tables0: Tables, node0: map<nat, Node>, tables: Tables, mem: set<nat>, r: nat, h: nat)
    requires IsRoot(tables0, node0, r) && CanRun(tables0, r, 0, LastPage(0, 0), h) && Owns(tables0, mem, r, 0, h)
    requires forall w: nat {:trigger Flat(tables, r, w)} | w < MAXVPN ::
               Flat(tables, r, w) == Flat(tables0, r, w) || (!V(Flat(tables0, r, w)) && Flat(tables, r, w) == 0)
    ensures CanRun(tables, r, 0, LastPage(0, 0), h) && Owns(tables, mem, r, 0, h)
  {
    forall k: nat | k < h
      ensures Mapped(Flat(tables, r, k)) ==> Flat(tables0, r, k) == Flat(tables, r, k)
    {
      assert Flat(tables, r, k) == Flat(tables0, r, k) || Flat(tables, r, k) == 0;
    }
  }

  lemma UndoneNothing(tables0: Tables, node0: map<nat, Node>, data0: map<nat, Bytes>, tables: Tables,
                      data: map<nat, Bytes>, r: nat, lo: nat)
    requires Grown(tables0, node0, data0, tables, data, r, lo, [])
    ensures Restored(tables0, node0, tables, r) && data == data0
  {
    assert LeafPages(tables, r, lo, lo) == {};
    assert data - {} == data;
  }

  lemma GrownStill(tables0: Tables, node0: map<nat, Node>, data0: map<nat, Bytes>, tables: Tables,
                   node: map<nat, Node>, tables': Tables,
                   data: map<nat, Bytes>, r: nat, lo: nat, wants: seq<Want>)
    requires (lo + |wants| <= MAXVPN || |wants| == 0) && forall i | 0 <= i < |wants| :: wants[i].perm < 1024
    requires Grown(tables0, node0, data0, tables, data, r, lo, wants) && SameFlat(tables, node, tables')
    requires tables.Keys == node.Keys && Extends(node0, node) && IsRoot(tables0, node0, r)
    ensures Grown(tables0, node0, data0, tables', data, r, lo, wants)
  {
    var hi := lo + |wants|;
    assert forall r' | IsRoot(tables0, node0, r') :: IsRoot(tables, node, r');
    forall w: nat | lo <= w < hi
      ensures Flat(tables', r, w) == Flat(tables, r, w)
      ensures !V(Flat(tables0, r, w)) && NewPage(tables', data, data0, r, w, wants[w - lo])
    {
      assert NewPage(tables, data, data0, r, w, wants[w - lo]);
    }
    assert LeafPages(tables', r, lo, hi) == LeafPages(tables, r, lo, hi);
  }

  /** What was gained can be released. */
  lemma GrownOwns(tables0: Tables, node0: map<nat, Node>, data0: map<nat, Bytes>, tables: Tables, data: map<nat, Bytes>,
                  r: nat, lo: nat, wants: seq<Want>)
    requires lo + |wants| <= MAXVPN && forall i | 0 <= i < |wants| :: 1 < wants[i].perm < 1024
    requires Grown(tables0, node0, data0, tables, data, r, lo, wants)
    ensures Owns(tables, data.Keys, r, lo, lo + |wants|)
    ensures forall w: nat {:trigger Flat(tables, r, w)} | lo <= w < lo + |wants| :: Mapped(Flat(tables, r, w))
  {
    forall w: nat | lo <= w < lo + |wants|
      ensures Mapped(Flat(tables, r, w)) && Ppn(Flat(tables, r, w)) in data
    {
      assert NewPage(tables, data, data0, r, w, wants[w - lo]);
    }
  }

  ghost predicate FlatCleared(tables: Tables, node: map<nat, Node>, tables': Tables, r: nat, lo: nat, hi: nat) {
    forall r', w: nat {:trigger Flat(tables', r', w)} | IsRoot(tables, node, r') && w < MAXVPN ::
      Flat(tables', r', w) == if r' == r && lo <= w < hi then 0 else Flat(tables, r', w)
  }

  ghost predicate LeavesCleared(tables: Tables, node: map<nat, Node>, tables': Tables, r: nat, lo: nat, hi: nat) {
    && lo <= hi && (hi <= MAXVPN || hi == lo) && tables'.Keys == tables.Keys
    && FlatCleared(tables, node, tables', r, lo, hi)
    && forall w | lo <= w < hi :: Mapped(Flat(tables, r, w))
  }

  /** Pages lo..hi of root r were leaves and are now unmapped, their memory released if asked for. */
  ghost predicate Unmapped(tables: Tables, node: map<nat, Node>, tables': Tables, data: map<nat, Bytes>,
                           data': map<nat, Bytes>,
                           r: nat, lo: nat, hi: nat, doFree: bool) {
    && LeavesCleared(tables, node, tables', r, lo, hi)
    && data' == if doFree then data - LeafPages(tables, r, lo, hi) else data
  }

  /** Growing and then unmapping what was gained restores both the translation and the memory. */
  lemma Undone(tables0: Tables, node0: map<nat, Node>, data0: map<nat, Bytes>, tables1: Tables, node1: map<nat, Node>,
               data1: map<nat, Bytes>,
               tables2: Tables, data2: map<nat, Bytes>, r: nat, lo: nat, wants: seq<Want>)
    requires lo + |wants| <= MAXVPN && forall i | 0 <= i < |wants| :: 1 < wants[i].perm < 1024
    requires Grown(tables0, node0, data0, tables1, data1, r, lo, wants)
    requires tables1.Keys == node1.Keys && Extends(node0, node1) && IsRoot(tables0, node0, r)
    requires Unmapped(tables1, node1, tables2, data1, data2, r, lo, lo + |wants|, true)
    ensures Restored(tables0, node0, tables2, r) && data2 == data0
  {
    forall r', w: nat | IsRoot(tables0, node0, r') && w < MAXVPN
      ensures Flat(tables2, r', w) == Flat(tables0, r', w)
              || (r' == r && !V(Flat(tables0, r, w)) && Flat(tables2, r, w) == 0)
    {
      assert IsRoot(tables1, node1, r');
      assert Flat(tables2, r', w) == if r' == r && lo <= w < lo + |wants| then 0 else Flat(tables1, r', w);
      if r' == r && lo <= w < lo + |wants| {
        assert Mapped(Flat(tables1, r, w));
      }
    }
  }

  /** Valid entries of root r below page n are leaves over memory in `mem`. */
  ghost predicate Readable(tables: Tables, mem: set<nat>, r: nat, n: nat)
    requires n <= MAXVPN
  {
    forall w: nat {:trigger Flat(tables, r, w)} | w < n && V(Flat(tables, r, w)) ::
      Mapped(Flat(tables, r, w)) && Ppn(Flat(tables, r, w)) in mem
  }

  /** Root r's pages below n are all valid. */
  ghost predicate AllThere(tables: Tables, r: nat, n: nat)
    requires n <= MAXVPN
  {
    forall w: nat {:trigger Flat(tables, r, w)} | w < n :: V(Flat(tables, r, w))
  }

  lemma ThereNext(tables: Tables, r: nat, n: nat)
    requires n < MAXVPN && AllThere(tables, r, n) && V(Flat(tables, r, n))
    ensures AllThere(tables, r, n + 1)
  {
  }

  /** Copies of root r's pages below n: the same flags, the same bytes. */
  ghost function Copies(tables: Tables, data: map<nat, Bytes>, r: nat, n: nat): (s: seq<Want>)
    requires n <= MAXVPN
    ensures |s| == n && forall i | 0 <= i < n :: s[i].perm == Flags(Flat(tables, r, i)) < 1024
    ensures forall i | 0 <= i < n && Ppn(Flat(tables, r, i)) in data :: s[i].content == data[Ppn(Flat(tables, r, i))]
  {
    if n == 0 then []
    else
      var pte := Flat(tables, r, n - 1);
      Copies(tables, data, r, n - 1) + [Want(Flags(pte), if Ppn(pte) in data then data[Ppn(pte)] else [])]
  }

  lemma {:induction false} CopiesAreLeaves(tables: Tables, data: map<nat, Bytes>, r: nat, n: nat)
    requires n <= MAXVPN && Readable(tables, data.Keys, r, n) && forall w: nat | w < n :: V(Flat(tables, r, w))
    ensures forall i | 0 <= i < n :: 1 < Copies(tables, data, r, n)[i].perm < 1024
  {
    if n > 0 {
      CopiesAreLeaves(tables, data, r, n - 1);
      assert Mapped(Flat(tables, r, n - 1));
    }
  }

  /** Growing leaves the memory there was. */
  lemma GrownKeeps(tables0: Tables, node0: map<nat, Node>, data0: map<nat, Bytes>, tables: Tables,
                   data: map<nat, Bytes>,
                   r: nat, lo: nat, wants: seq<Want>, p: nat)
    requires lo + |wants| <= MAXVPN && forall i | 0 <= i < |wants| :: wants[i].perm < 1024
    requires Grown(tables0, node0, data0, tables, data, r, lo, wants) && p in data0
    ensures p in data && data[p] == data0[p]
  {
  }

  lemma UnmappedNone(tables: Tables, node: map<nat, Node>, tables': Tables, data: map<nat, Bytes>,
                     data': map<nat, Bytes>, r: nat, hi: nat)
    requires Unmapped(tables, node, tables', data, data', r, 0, hi, true) && !Mapped(Flat(tables, r, 0))
    ensures hi == 0 && data' == data && SameFlat(tables, node, tables')
  {
    assert LeafPages(tables, r, 0, 0) == {};
    assert data - {} == data;
  }

  lemma NextData(tables: Tables, tables': Tables, data: map<nat, Bytes>, data0: map<nat, Bytes>, r: nat, lo: nat,
                 hi: nat, p: nat, content: Bytes)
    requires lo <= hi < MAXVPN && p !in data && Ppn(Flat(tables', r, hi)) == p
    requires forall w: nat {:trigger Flat(tables', r, w)} | lo <= w < hi ::
               Flat(tables', r, w) == Flat(tables, r, w) && Ppn(Flat(tables, r, w)) in data
    requires data - LeafPages(tables, r, lo, hi) == data0
    ensures data[p := content] - LeafPages(tables', r, lo, hi + 1) == data0
  {
    forall w: nat | lo <= w < hi
      ensures Ppn(Flat(tables, r, w)) in LeafPages(tables', r, lo, hi)
    {
      assert Flat(tables', r, w) == Flat(tables, r, w);
    }
    assert LeafPages(tables', r, lo, hi) == LeafPages(tables, r, lo, hi);
    assert LeafPages(tables', r, lo, hi + 1) == LeafPages(tables', r, lo, hi) + {p};
    assert p !in LeafPages(tables, r, lo, hi);
    assert data[p := content] - LeafPages(tables', r, lo, hi + 1) == data - LeafPages(tables, r, lo, hi);
  }

  lemma GrownNext(tables0: Tables, node0: map<nat, Node>, data0: map<nat, Bytes>, tables: Tables, node: map<nat, Node>,
                  data: map<nat, Bytes>,
                  tables': Tables, r: nat, lo: nat, wants: seq<Want>, p: nat, x: Want)
    requires lo + |wants| < MAXVPN && (forall i | 0 <= i < |wants| :: wants[i].perm < 1024) && x.perm < 1024
    requires Grown(tables0, node0, data0, tables, data, r, lo, wants)
    requires tables.Keys == node.Keys && Extends(node0, node) && IsRoot(tables0, node0, r)
    requires !V(Flat(tables, r, lo + |wants|)) && FlatPut(tables, node, tables', r, lo + |wants|, MkPte(p, x.perm))
    requires p !in data
    ensures Grown(tables0, node0, data0, tables', data[p := x.content], r, lo, wants + [x])
  {
    var hi, data' := lo + |wants|, data[p := x.content];
    assert forall r' | IsRoot(tables0, node0, r') :: IsRoot(tables, node, r');
    assert Flat(tables', r, hi) == MkPte(p, x.perm);
    assert Flat(tables, r, hi) == Flat(tables0, r, hi);
    forall w: nat | lo <= w < hi
      ensures Flat(tables', r, w) == Flat(tables, r, w) && Ppn(Flat(tables, r, w)) in data
    {
    }
    forall w: nat | lo <= w < hi + 1
      ensures !V(Flat(tables0, r, w)) && NewPage(tables', data', data0, r, w, (wants + [x])[w - lo])
    {
      if w < hi {
        assert NewPage(tables, data, data0, r, w, wants[w - lo]);
      }
    }
    NextData(tables, tables', data, data0, r, lo, hi, p, x.content);
  }

  lemma NotYetFreed(tables: Tables, mem: set<nat>, r: nat, lo: nat, a: nat, hi: nat)
    requires lo <= a < hi <= MAXVPN && Owns(tables, mem, r, lo, hi) && Mapped(Flat(tables, r, a))
    requires forall w | lo <= w < a :: Mapped(Flat(tables, r, w))
    ensures Ppn(Flat(tables, r, a)) in mem - LeafPages(tables, r, lo, a)
  {
  }

  lemma StillOwned(tables: Tables, node: map<nat, Node>, tables': Tables, data: map<nat, Bytes>, data': map<nat, Bytes>,
                   r: nat, lo: nat, a: nat, hi: nat, doFree: bool)
    requires Unmapped(tables, node, tables', data, data', r, lo, a, doFree) && a < MAXVPN && a <= hi <= MAXVPN
    requires IsRoot(tables, node, r) && (a == hi ==> !Mapped(Flat(tables, r, a)))
    requires doFree ==> Owns(tables, data.Keys, r, lo, hi)
    ensures Flat(tables', r, a) == Flat(tables, r, a)
    ensures doFree && Mapped(Flat(tables', r, a)) ==> Ppn(Flat(tables', r, a)) in data'
  {
    assert Flat(tables', r, a) == Flat(tables, r, a);
    if doFree && Mapped(Flat(tables, r, a)) {
      NotYetFreed(tables, data.Keys, r, lo, a, hi);
    }
  }

  lemma ClearedNext(tables: Tables, node: map<nat, Node>, tables1: Tables, tables2: Tables, r: nat, lo: nat, a: nat)
    requires lo <= a < MAXVPN && tables1.Keys == tables.Keys
    requires FlatCleared(tables, node, tables1, r, lo, a) && FlatPut(tables1, node, tables2, r, a, 0)
    ensures FlatCleared(tables, node, tables2, r, lo, a + 1)
  {
    forall r', w: nat | IsRoot(tables, node, r') && w < MAXVPN
      ensures Flat(tables2, r', w) == if r' == r && lo <= w < a + 1 then 0 else Flat(tables, r', w)
    {
      assert Flat(tables1, r', w) == if r' == r && lo <= w < a then 0 else Flat(tables, r', w);
    }
  }

  lemma UnmappedNext(tables: Tables, node: map<nat, Node>, tables1: Tables, tables2: Tables,
                     data: map<nat, Bytes>, data1: map<nat, Bytes>, data2: map<nat, Bytes>,
                     r: nat, lo: nat, a: nat, doFree: bool)
    requires Unmapped(tables, node, tables1, data, data1, r, lo, a, doFree) && a < MAXVPN && IsRoot(tables, node, r)
    requires FlatPut(tables1, node, tables2, r, a, 0) && tables2.Keys == tables1.Keys && Mapped(Flat(tables1, r, a))
    requires data2 == if doFree then data1 - {Ppn(Flat(tables1, r, a))} else data1
    ensures Unmapped(tables, node, tables2, data, data2, r, lo, a + 1, doFree)
  {
    assert Flat(tables1, r, a) == Flat(tables, r, a);
    assert LeafPages(tables, r, lo, a + 1) == LeafPages(tables, r, lo, a) + {Ppn(Flat(tables, r, a))};
    ClearedNext(tables, node, tables1, tables2, r, lo, a);
  }

  datatype Outcome = Ok | NoMemory | Panic

  /** Pages lo..hi of root r now map consecutive physical pages; everything else translates as before. */
  ghost predicate FlatMapped(tables: Tables, node: map<nat, Node>, tables': Tables, r: nat, lo: nat, hi: nat, ppn: nat,
                             perm: nat)
    requires perm < 1024
  {
    forall r', w: nat {:trigger Flat(tables', r', w)} | IsRoot(tables, node, r') && w < MAXVPN ::
      Flat(tables', r', w) == if r' == r && lo <= w < hi then MkPte(ppn + (w - lo), perm) else Flat(tables, r', w)
  }

  lemma MappedNext(tables: Tables, node: map<nat, Node>, tables1: Tables, node1: map<nat, Node>, tables2: Tables,
                   r: nat, lo: nat, a: nat, ppn: nat, perm: nat, done: bool)
    requires perm < 1024 && lo <= a < MAXVPN && tables1.Keys == node1.Keys && Extends(node, node1)
    requires FlatMapped(tables, node, tables1, r, lo, a, ppn, perm)
    requires if done then FlatPut(tables1, node1, tables2, r, a, MkPte(ppn + (a - lo), perm))
             else SameFlat(tables1, node1, tables2)
    ensures FlatMapped(tables, node, tables2, r, lo, if done then a + 1 else a, ppn, perm)
  {
    forall r', w: nat | IsRoot(tables, node, r') && w < MAXVPN
      ensures Flat(tables2, r', w)
              == if r' == r && lo <= w < (if done then a + 1 else a) then MkPte(ppn + (w - lo), perm)
                                          else Flat(tables, r', w)
    {
      assert Flat(tables1, r', w)
             == if r' == r && lo <= w < a then MkPte(ppn + (w - lo), perm) else Flat(tables, r', w);
    }
  }

  lemma FlatPutAfter(tables: Tables, node: map<nat, Node>, tables1: Tables, node1: map<nat, Node>, tables2: Tables,
                     r: nat, v: nat, pte: nat)
    requires tables1.Keys == node1.Keys && Extends(node, node1)
    requires SameFlat(tables, node, tables1) && FlatPut(tables1, node1, tables2, r, v, pte)
    ensures FlatPut(tables, node, tables2, r, v, pte)
  {
    forall r', w: nat | IsRoot(tables, node, r') && w < MAXVPN
      ensures Flat(tables2, r', w) == if r' == r && w == v then pte else Flat(tables, r', w)
    {
      assert Flat(tables1, r', w) == Flat(tables, r', w);
    }
  }

  lemma SameFlatTrans(tables: Tables, node: map<nat, Node>, tables1: Tables, node1: map<nat, Node>, tables2: Tables)
    requires tables1.Keys == node1.Keys && Extends(node, node1)
    requires SameFlat(tables, node, tables1) && SameFlat(tables1, node1, tables2)
    ensures SameFlat(tables, node, tables2)
  {
    forall r, v: nat | IsRoot(tables, node, r) && v < MAXVPN
      ensures Flat(tables2, r, v) == Flat(tables, r, v)
    {
      assert Flat(tables1, r, v) == Flat(tables, r, v);
    }
  }

  /** What uvmcopy of n pages asks of the tables it starts from; closed until Open unfolds it. */
  ghost predicate CanCopy(tables: Tables, mem: set<nat>, parent: nat, child: nat, n: nat, h: nat) {
    && n <= MAXVPN && h <= MAXVPN
    && forall x {:trigger Open(x)} | Open(x) ::
         && Readable(tables, mem, parent, n) && CanRun(tables, child, 0, LastPage(0, 0), h)
         && Owns(tables, mem, child, 0, h)
  }

  lemma CanCopyGives(tables: Tables, mem: set<nat>, parent: nat, child: nat, n: nat, h: nat, k: nat)
    requires CanCopy(tables, mem, parent, child, n, h) && k <= n
    ensures Readable(tables, mem, parent, k) && CanRun(tables, child, 0, LastPage(0, 0), h)
    ensures Owns(tables, mem, child, 0, h)
  {
    assert Open(0);
  }

  /** uvmcopy after k pages; closed until Open unfolds it. */
  ghost predicate Copied(tables0: Tables, node0: map<nat, Node>, data0: map<nat, Bytes>, tables: Tables,
                         data: map<nat, Bytes>, parent: nat, child: nat, k: nat) {
    && k <= MAXVPN
    && forall x {:trigger Open(x)} | Open(x) ::
         AllThere(tables0, parent, k)
         && Grown(tables0, node0, data0, tables, data, child, 0, Copies(tables0, data0, parent, k))
  }

  lemma CopiedNothing(tables: Tables, node: map<nat, Node>, data: map<nat, Bytes>, parent: nat, child: nat)
    ensures Copied(tables, node, data, tables, data, parent, child, 0)
  {
    GrownNothing(tables, node, data, child, 0);
  }

  lemma CopiedGives(tables0: Tables, node0: map<nat, Node>, data0: map<nat, Bytes>, tables: Tables,
                    data: map<nat, Bytes>, parent: nat, child: nat, k: nat)
    requires Copied(tables0, node0, data0, tables, data, parent, child, k)
    ensures AllThere(tables0, parent, k)
    ensures Grown(tables0, node0, data0, tables, data, child, 0, Copies(tables0, data0, parent, k))
  {
    assert Open(0);
  }

  /** Leaf tables, once there, stay. */
  ghost predicate LeavesKept(tables: Tables, node: map<nat, Node>, tables': Tables) {
    forall r, i2: nat, i1: nat {:trigger LeafTable(tables', r, i2, i1)} |
      IsRoot(tables, node, r) && i2 < ENTRIES && i1 < ENTRIES && LeafTable(tables, r, i2, i1).Some? ::
      LeafTable(tables', r, i2, i1) == LeafTable(tables, r, i2, i1)
  }

  lemma ChildrenKept(tables: Tables, node: map<nat, Node>, tables': Tables)
    requires forall u, j: nat {:trigger Child(tables', u, j)} | Child(tables, u, j).Some? ::
               Child(tables', u, j) == Child(tables, u, j)
    ensures LeavesKept(tables, node, tables')
  {
    forall r, i2: nat, i1: nat | IsRoot(tables, node, r) && LeafTable(tables, r, i2, i1).Some?
      ensures LeafTable(tables', r, i2, i1) == LeafTable(tables, r, i2, i1)
    {
      assert Child(tables', r, i2) == Child(tables, r, i2);
      assert Child(tables', Child(tables, r, i2).value, i1) == LeafTable(tables, r, i2, i1);
    }
  }

  /** A write to a leaf page moves no leaf page. */
  lemma LeafPutKept(tables: Tables, node: map<nat, Node>, root: nat, v: nat, pte: nat)
    requires Forest(tables, node) && IsRoot(tables, node, root) && v < MAXVPN
    requires LeafTable(tables, root, Split(v).i2, Split(v).i1).Some?
    ensures var t := LeafTable(tables, root, Split(v).i2, Split(v).i1).value;
            && t in tables && |tables[t]| == ENTRIES
            && LeavesKept(tables, node, Put(tables, t, Split(v).i0, pte))
  {
    LeafPlace(tables, node, root, Split(v).i2, Split(v).i1);
    var t := LeafTable(tables, root, Split(v).i2, Split(v).i1).value;
    var tables' := Put(tables, t, Split(v).i0, pte);
    forall r, i2: nat, i1: nat |
      IsRoot(tables, node, r) && i2 < ENTRIES && i1 < ENTRIES && LeafTable(tables, r, i2, i1).Some?
      ensures LeafTable(tables', r, i2, i1) == LeafTable(tables, r, i2, i1)
    {
      LeafPlace(tables, node, r, i2, i1);
    }
  }

  lemma LeavesKeptTrans(tables: Tables, node: map<nat, Node>, tables1: Tables, node1: map<nat, Node>, tables2: Tables)
    requires LeavesKept(tables, node, tables1) && LeavesKept(tables1, node1, tables2)
    requires Extends(node, node1) && tables1.Keys == node1.Keys
    ensures LeavesKept(tables, node, tables2)
  {
    forall r, i2: nat, i1: nat |
      IsRoot(tables, node, r) && i2 < ENTRIES && i1 < ENTRIES && LeafTable(tables, r, i2, i1).Some?
      ensures LeafTable(tables2, r, i2, i1) == LeafTable(tables, r, i2, i1)
    {
      assert LeafTable(tables1, r, i2, i1) == LeafTable(tables, r, i2, i1);
    }
  }

  /** kalloc has refused one page more if no is set, and none otherwise. */
  predicate Refusals(before: nat, after: nat, no: bool) { after == before + if no then 1 else 0 }

  class Memory {
    /** Page-table pages, user pages, and pages kalloc may hand out. */
    var tables: Tables
    var data: map<nat, Bytes>
    var free: set<nat>
    ghost var node: map<nat, Node>
    /** All the pages there are. */
    ghost const pages: set<nat>
    /** How often kalloc has refused a page. */
    ghost var refused: nat

    ghost predicate Valid()
      reads this
    {
      Forest(tables, node) && Partition(tables, data, free, pages)
    }

    /** All of memory free. */
    constructor (all: set<nat>)
      ensures Valid() && tables == map[] && data == map[] && free == pages == all
    {
      tables, data, free, node, refused := map[], map[], all, map[], 0;
      pages := all;
    }

    /** kalloc: refuses, or finds a page that is in no use. */
    method Kalloc() returns (r: Option<nat>)
      modifies `refused
      ensures r.Some? ==> r.value in free
      ensures Refusals(old(refused), refused, r.None?)
    {
      var full := free == {};
      if * {
        full := true;
      }
      if full {
        refused := refused + 1;
        return None;
      }
      var p :| p in free;
      r := Some(p);
    }

    /** uvmcreate: a root that maps nothing. */
    method Uvmcreate() returns (r: Option<nat>)
      requires Valid()
      modifies `tables, `free, `node, `refused
      ensures Valid() && Extends(old(node), node) && SameFlat(old(tables), old(node), tables)
      ensures r.Some? ==> r.value !in old(tables) && IsRoot(tables, node, r.value) && Empty(tables, r.value)
      ensures Refusals(old(refused), refused, r.None?)
    {
      r := Kalloc();
      if r.Some? {
        assert Uses(tables, data, free, r.value) == 1;
        NewRoot(tables, node, r.value);
        Moved(tables, data, free, pages, tables[r.value := ZeroPage()], data, free - {r.value}, r.value);
        free := free - {r.value};
        node := node[r.value := Root(r.value)];
        tables := tables[r.value := ZeroPage()];
      }
    }

    /** One level of walk: follow entry i of page t, allocating the page below if asked to. */
    method Descend(t: nat, i: nat, alloc: bool) returns (r: Option<nat>)
      requires Valid() && t in tables && !node[t].Leaf? && i < ENTRIES && (node[t].Root? ==> i < TOPS)
      modifies `tables, `free, `node, `refused
      ensures Valid() && Extends(old(node), node) && SameFlat(old(tables), old(node), tables)
      ensures r == Child(tables, t, i) && (r.Some? ==> r.value in tables && node[r.value] == ChildPlace(node[t], i))
      ensures old(Child(tables, t, i)).Some? || !alloc ==> unchanged(this)
      ensures Refusals(old(refused), refused, alloc && r.None?)
      ensures forall u, j: nat | u in old(tables) && (u != t || j != i) ::
                Child(tables, u, j) == old(Child(tables, u, j))
    {
      assert EntryOk(tables, node, t, i) && |tables[t]| == ENTRIES;
      if V(tables[t][i]) {
        r := Some(Ppn(tables[t][i]));
      } else if !alloc {
        r := None;
      } else {
        r := Kalloc();
        if r.Some? {
          assert Uses(tables, data, free, r.value) <= 1;
          GraftForest(tables, node, t, i, r.value);
          GraftSame(tables, node, t, i, r.value);
          forall u, j: nat
            ensures Child(Graft(tables, t, i, r.value), u, j)
                    == if u == r.value then None else if u == t && j == i then r else Child(tables, u, j)
          {
            GraftChild(tables, node, t, i, r.value, u, j);
          }
          assert Uses(tables, data, free, r.value) == 1;
          Moved(tables, data, free, pages, Graft(tables, t, i, r.value), data, free - {r.value}, r.value);
          free := free - {r.value};
          node := node[r.value := ChildPlace(node[t], i)];
          tables := Graft(tables, t, i, r.value);
        }
      }
    }

    /** walk: the leaf page-table page for v, or None if a level is missing and was not allocated. */
    method Walk(root: nat, v: nat, alloc: bool) returns (r: Option<nat>)
      requires Valid() && IsRoot(tables, node, root) && v < MAXVPN
      modifies `tables, `free, `node, `refused
      ensures Valid() && Extends(old(node), node) && SameFlat(old(tables), old(node), tables)
      ensures r.Some? ==> r == LeafTable(tables, root, Split(v).i2, Split(v).i1)
      ensures !alloc ==> unchanged(this) && r == LeafTable(tables, root, Split(v).i2, Split(v).i1)
      ensures Refusals(old(refused), refused, alloc && r.None?) && LeavesKept(old(tables), old(node), tables)
      ensures r.None? ==> old(LeafTable(tables, root, Split(v).i2, Split(v).i1)).None?
    {
      var a := Split(v);
      var t, level := root, 2;
      while level > 0
        invariant 0 <= level <= 2 && Valid() && Extends(old(node), node) && SameFlat(old(tables), old(node), tables)
        invariant t in tables && (level == 2 ==> t == root) && node[root] == Root(root)
        invariant level == 1 ==> Child(tables, root, a.i2) == Some(t) && node[t] == Mid(root, a.i2)
        invariant level == 0 ==> LeafTable(tables, root, a.i2, a.i1) == Some(t)
        invariant !alloc ==> unchanged(this)
        invariant refused == old(refused) && LeavesKept(old(tables), old(node), tables)
        invariant level == 2 ==> tables == old(tables)
        invariant level == 1 && old(Child(tables, root, a.i2)).Some? ==> tables == old(tables)
      {
        ghost var tables1, node1 := tables, node;
        r := Descend(t, if level == 2 then a.i2 else a.i1, alloc);
        SameFlatTrans(old(tables), old(node), tables1, node1, tables);
        ChildrenKept(tables1, node1, tables);
        LeavesKeptTrans(old(tables), old(node), tables1, node1, tables);
        if r.None? {
          return;
        }
        t, level := r.value, level - 1;
      }
      r := Some(t);
    }

    /** One round of mappages. */
    method MapPage(root: nat, v: nat, ppn: nat, perm: nat) returns (o: Outcome)
      requires Valid() && IsRoot(tables, node, root) && v < MAXVPN && perm < 1024
      modifies `tables, `free, `node, `refused
      ensures Valid() && Extends(old(node), node)
      ensures o.Ok? ==>
                !V(old(Flat(tables, root, v))) && FlatPut(old(tables), old(node), tables, root, v, MkPte(ppn, perm))
      ensures !o.Ok? ==> SameFlat(old(tables), old(node), tables)
      ensures o.Panic? <==> V(old(Flat(tables, root, v)))
      ensures Refusals(old(refused), refused, o.NoMemory?) && LeavesKept(old(tables), old(node), tables)
      ensures o.NoMemory? ==> old(LeafTable(tables, root, Split(v).i2, Split(v).i1)).None?
    {
      var t := Walk(root, v, true);
      if t.None? {
        return NoMemory;
      }
      SetLeafFlat(tables, node, root, v, MkPte(ppn, perm));
      assert Flat(tables, root, v) == old(Flat(tables, root, v));
      if V(tables[t.value][Split(v).i0]) {
        return Panic;
      }
      LeafPutKept(tables, node, root, v, MkPte(ppn, perm));
      LeavesKeptTrans(old(tables), old(node), tables, node, Put(tables, t.value, Split(v).i0, MkPte(ppn, perm)));
      FlatPutAfter(old(tables), old(node), tables, node, Put(tables, t.value, Split(v).i0, MkPte(ppn, perm)), root, v,
                   MkPte(ppn, perm));
      Moved(tables, data, free, pages, Put(tables, t.value, Split(v).i0, MkPte(ppn, perm)), data, free, t.value);
      tables := Put(tables, t.value, Split(v).i0, MkPte(ppn, perm));
      o := Ok;
    }

    /** mappages's loop. */
    method MapRun(root: nat, first: nat, last: nat, ppn: nat, perm: nat) returns (o: Outcome, ghost hi: nat)
      requires Valid() && IsRoot(tables, node, root) && perm < 1024
      modifies `tables, `free, `node, `refused
      ensures Valid() && Extends(old(node), node)
      ensures first <= hi <= MAXVPN || hi == first
      ensures FlatMapped(old(tables), old(node), tables, root, first, hi, ppn, perm)
      ensures forall w | first <= w < hi :: !V(old(Flat(tables, root, w)))
      ensures o.Ok? ==> hi == last + 1 <= MAXVPN
      ensures !o.Ok? && first <= last ==> hi <= last
      ensures o.Panic? ==> hi >= MAXVPN || V(old(Flat(tables, root, hi)))
      ensures Refusals(old(refused), refused, o.NoMemory?)
      ensures o.NoMemory? ==> hi < MAXVPN && old(LeafTable(tables, root, Split(hi).i2, Split(hi).i1)).None?
    {
      var a := first;
      hi := a;
      while true
        invariant Valid() && Extends(old(node), node) && hi == a && first <= a
        invariant (a <= MAXVPN || a == first) && (first <= last ==> a <= last)
        invariant FlatMapped(old(tables), old(node), tables, root, first, a, ppn, perm)
        invariant forall w | first <= w < a :: !V(old(Flat(tables, root, w)))
        invariant refused == old(refused) && LeavesKept(old(tables), old(node), tables)
        decreases MAXVPN - a
      {
        if a >= MAXVPN {
          return Panic, hi;
        }
        ghost var tables1, node1 := tables, node;
        assert Flat(tables, root, a) == old(Flat(tables, root, a));
        o := MapPage(root, a, ppn + (a - first), perm);
        MappedNext(old(tables), old(node), tables1, node1, tables, root, first, a, ppn, perm, o.Ok?);
        LeavesKeptTrans(old(tables), old(node), tables1, node1, tables);
        if !o.Ok? {
          return;
        }
        hi := a + 1;
        if a == last {
          return;
        }
        a := a + 1;
      }
    }

    /** mappages, from page va / PGSIZE to the page of va + size - 1 (64-bit arithmetic).
        hi is the first page not reached. */
    method Mappages(root: nat, va: nat, size: nat, ppn: nat, perm: nat) returns (o: Outcome, ghost hi: nat)
      requires Valid() && IsRoot(tables, node, root) && perm < 1024 && va < U64 && size < U64
      modifies `tables, `free, `node, `refused
      ensures Valid() && Extends(old(node), node)
      ensures va / PGSIZE <= hi <= MAXVPN || hi == va / PGSIZE
      ensures FlatMapped(old(tables), old(node), tables, root, va / PGSIZE, hi, ppn, perm)
      ensures forall w | va / PGSIZE <= w < hi :: !V(old(Flat(tables, root, w)))
      ensures o.Ok? ==> hi == LastPage(va, size) + 1 <= MAXVPN
      ensures !o.Ok? && va / PGSIZE <= LastPage(va, size) ==> hi <= LastPage(va, size)
      ensures o.Panic? ==> hi >= MAXVPN || V(old(Flat(tables, root, hi)))
      ensures Refusals(old(refused), refused, o.NoMemory?)
      ensures o.NoMemory? ==> hi < MAXVPN && old(LeafTable(tables, root, Split(hi).i2, Split(hi).i1)).None?
    {
      o, hi := MapRun(root, va / PGSIZE, LastPage(va, size), ppn, perm);
    }

    /** One round of uvmunmap. */
    method UnmapPage(root: nat, v: nat, doFree: bool) returns (o: Outcome)
      requires Valid() && IsRoot(tables, node, root) && v < MAXVPN
      requires doFree && Mapped(Flat(tables, root, v)) ==> Ppn(Flat(tables, root, v)) in data
      modifies `tables, `data, `free, `node, `refused
      ensures Valid() && unchanged(`node, `refused) && !o.NoMemory?
      ensures o.Ok? <==> Mapped(old(Flat(tables, root, v)))
      ensures !o.Ok? ==> unchanged(`tables, `data)
      ensures o.Ok? ==> FlatPut(old(tables), node, tables, root, v, 0)
      ensures o.Ok? ==> data == (if doFree then old(data) - {Ppn(old(Flat(tables, root, v)))} else old(data))
    {
      var t := Walk(root, v, false);
      if t.None? {
        return Panic;
      }
      SetLeafFlat(tables, node, root, v, 0);
      var pte := tables[t.value][Split(v).i0];
      if !V(pte) {
        return Panic;
      }
      if Flags(pte) == 1 {
        return Panic;
      }
      ghost var tables' := Put(tables, t.value, Split(v).i0, 0);
      assert Uses(tables, data, free, Ppn(pte)) <= 1;
      Moved(tables, data, free, pages, tables', data, free, Ppn(pte));
      if doFree {
        Moved(tables', data, free, pages, tables', data - {Ppn(pte)}, free + {Ppn(pte)}, Ppn(pte));
        free, data := free + {Ppn(pte)}, data - {Ppn(pte)};
      }
      tables := Put(tables, t.value, Split(v).i0, 0);
      o := Ok;
    }

    /** The same round, as a step from pages first..a to first..a + 1 cleared since tables0 and data0. */
    method UnmapRound(root: nat, first: nat, a: nat, doFree: bool, ghost hi: nat, ghost tables0: Tables,
                      ghost data0: map<nat, Bytes>)
      returns (o: Outcome)
      requires Valid() && IsRoot(tables0, node, root) && a < MAXVPN && a <= hi <= MAXVPN
      requires a == hi ==> !Mapped(Flat(tables0, root, a))
      requires doFree ==> Owns(tables0, data0.Keys, root, first, hi)
      requires Unmapped(tables0, node, tables, data0, data, root, first, a, doFree)
      modifies `tables, `data, `free, `node, `refused
      ensures Valid() && unchanged(`node, `refused) && !o.NoMemory?
      ensures o.Ok? <==> Mapped(Flat(tables0, root, a))
      ensures Unmapped(tables0, node, tables, data0, data, root, first, if o.Ok? then a + 1 else a, doFree)
    {
      StillOwned(tables0, node, tables, data0, data, root, first, a, hi, doFree);
      o := UnmapPage(root, a, doFree);
      if o.Ok? {
        UnmappedNext(tables0, node, old(tables), tables, data0, old(data), data, root, first, a, doFree);
      }
    }

    method UnmapRun(root: nat, first: nat, last: nat, doFree: bool, ghost h: nat) returns (o: Outcome, ghost hi: nat)
      requires Valid() && IsRoot(tables, node, root)
      requires CanRun(tables, root, first, last, h) && (doFree ==> Owns(tables, data.Keys, root, first, h))
      modifies `tables, `data, `free, `node, `refused
      ensures Valid() && unchanged(`node, `refused) && !o.NoMemory?
      ensures Unmapped(old(tables), node, tables, old(data), data, root, first, hi, doFree)
      ensures o.Ok? ==> hi == last + 1 <= MAXVPN
      ensures o.Panic? ==> hi >= MAXVPN || !Mapped(old(Flat(tables, root, hi)))
      ensures o.Panic? && first <= last ==> hi <= last
    {
      var a := first;
      hi := a;
      assert old(data) - {} == old(data);
      while true
        invariant Valid() && unchanged(`node, `refused) && hi == a && (first <= last ==> a <= last) && a <= h
        invariant Unmapped(old(tables), node, tables, old(data), data, root, first, a, doFree)
        decreases MAXVPN - a
      {
        if a >= MAXVPN {
          return Panic, hi;
        }
        o := UnmapRound(root, first, a, doFree, h, old(tables), old(data));
        if !o.Ok? {
          return;
        }
        hi := a + 1;
        if a == last {
          return;
        }
        a := a + 1;
      }
    }

    /** uvmunmap, over the same range as mappages. A page in the range without a leaf mapping panics.
        Memory to be released must be the caller's: h is how far the run can get. */
    method Uvmunmap(root: nat, va: nat, size: nat, doFree: bool, ghost h: nat) returns (o: Outcome, ghost hi: nat)
      requires Valid() && IsRoot(tables, node, root) && va < U64 && size < U64
      requires CanRun(tables, root, va / PGSIZE, LastPage(va, size), h)
      requires (doFree ==> Owns(tables, data.Keys, root, va / PGSIZE, h))
      modifies `tables, `data, `free, `node, `refused
      ensures Valid() && unchanged(`node, `refused) && !o.NoMemory?
      ensures Unmapped(old(tables), node, tables, old(data), data, root, va / PGSIZE, hi, doFree)
      ensures o.Ok? ==> hi == LastPage(va, size) + 1 <= MAXVPN
      ensures o.Panic? ==> hi >= MAXVPN || !Mapped(old(Flat(tables, root, hi)))
      ensures o.Panic? && va / PGSIZE <= LastPage(va, size) ==> hi <= LastPage(va, size)
    {
      o, hi := UnmapRun(root, va / PGSIZE, LastPage(va, size), doFree, h);
    }

    /** kalloc, fill, map and, if mapping fails, kfree: a round of uvmalloc or uvmcopy. */
    method AddPage(root: nat, k: nat, content: Bytes, perm: nat) returns (o: Outcome, p: nat)
      requires Valid() && IsRoot(tables, node, root) && k < MAXVPN && perm < 1024
      modifies `tables, `data, `free, `node, `refused
      ensures Valid() && Extends(old(node), node)
      ensures o.Ok? ==>
                !V(old(Flat(tables, root, k))) && FlatPut(old(tables), old(node), tables, root, k, MkPte(p, perm))
      ensures o.Ok? ==> p !in old(data) && data == old(data)[p := content]
      ensures !o.Ok? ==> SameFlat(old(tables), old(node), tables)
      ensures o.NoMemory? ==> data == old(data)
      ensures o.Panic? ==> V(old(Flat(tables, root, k)))
      ensures Refusals(old(refused), refused, o.NoMemory?)
    {
      var mem := Kalloc();
      if mem.None? {
        return NoMemory, 0;
      }
      p := mem.value;
      assert Uses(tables, data, free, p) <= 1;
      Moved(tables, data, free, pages, tables, data[p := content], free - {p}, p);
      free, data := free - {p}, data[p := content];
      o := MapPage(root, k, p, perm);
      if o.NoMemory? {
        assert Uses(tables, data, free, p) <= 1;
        Moved(tables, data, free, pages, tables, data - {p}, free + {p}, p);
        free, data := free + {p}, data - {p};
      }
    }

    /** uvmdealloc: pages from PGROUNDUP(newsz) up to PGROUNDUP(oldsz) go. */
    method Uvmdealloc(root: nat, oldsz: nat, newsz: nat) returns (o: Outcome, r: nat, ghost bad: nat)
      requires Valid() && IsRoot(tables, node, root) && oldsz < U64 && newsz < U64
      requires newsz < oldsz ==> Owns(tables, data.Keys, root, PgRound(newsz), Within(PgRound(newsz), PgRound(oldsz)))
      modifies `tables, `data, `free, `node, `refused
      ensures Valid() && unchanged(`node, `refused) && !o.NoMemory?
      ensures newsz >= oldsz ==> o.Ok? && r == oldsz && unchanged(`tables, `data)
      ensures newsz < oldsz && o.Ok? ==>
                r == newsz && if PgRound(newsz) < PgRound(oldsz) then
                                Unmapped(old(tables), node, tables, old(data), data, root, PgRound(newsz),
                                         PgRound(oldsz), true)
                              else unchanged(`tables, `data)
      ensures o.Panic? ==>
                PgRound(newsz) <= bad < PgRound(oldsz) && (bad >= MAXVPN || !Mapped(old(Flat(tables, root, bad))))
    {
      bad := 0;
      if newsz >= oldsz {
        return Ok, oldsz, bad;
      }
      var newup := PgRound(newsz);
      o, r := Ok, newsz;
      if newup < PgRound(oldsz) {
        NoWrap(oldsz);
        LastOf(newup, oldsz);
        o, bad := Uvmunmap(root, newup * PGSIZE, oldsz - newup * PGSIZE, true, Within(newup, PgRound(oldsz)));
      }
    }

    /** The same, as a step: root r has gained `wants` since tables0, and gains one page more. */
    method GrowPage(root: nat, lo: nat, k: nat, content: Bytes, perm: nat, ghost wants: seq<Want>,
                    ghost tables0: Tables, ghost node0: map<nat, Node>, ghost data0: map<nat, Bytes>)
      returns (o: Outcome)
      requires Valid() && IsRoot(tables0, node0, root) && Extends(node0, node) && k == lo + |wants| < MAXVPN
      requires perm < 1024 && forall i | 0 <= i < |wants| :: wants[i].perm < 1024
      requires Grown(tables0, node0, data0, tables, data, root, lo, wants)
      modifies `tables, `data, `free, `node, `refused
      ensures Valid() && Extends(node0, node)
      ensures o.Ok? ==> Grown(tables0, node0, data0, tables, data, root, lo, wants + [Want(perm, content)])
      ensures o.NoMemory? ==> Grown(tables0, node0, data0, tables, data, root, lo, wants)
      ensures o.Panic? ==> V(Flat(tables0, root, k))
      ensures Refusals(old(refused), refused, o.NoMemory?)
    {
      assert Flat(tables, root, k) == Flat(tables0, root, k);
      var p;
      o, p := AddPage(root, k, content, perm);
      if o.Ok? {
        GrownNext(tables0, node0, data0, old(tables), old(node), old(data), tables, root, lo, wants, p,
                  Want(perm, content));
      } else if o.NoMemory? {
        GrownStill(tables0, node0, data0, old(tables), old(node), tables, data, root, lo, wants);
      }
    }

    /** uvmalloc's way out: uvmdealloc back to where it started. */
    method Giveback(root: nat, lo: nat, k: nat, ghost tables0: Tables, ghost node0: map<nat, Node>,
                    ghost data0: map<nat, Bytes>)
      returns (r: nat)
      requires Valid() && IsRoot(tables0, node0, root) && Extends(node0, node) && lo <= k
      requires (k <= MAXVPN || k == lo) && k * PGSIZE < U64
      requires Grown(tables0, node0, data0, tables, data, root, lo, Fresh(k - lo))
      modifies `tables, `data, `free, `node, `refused
      ensures Valid() && unchanged(`node, `refused) && data == data0 && Restored(tables0, node0, tables, root)
    {
      if k > lo {
        GrownOwns(tables0, node0, data0, tables, data, root, lo, Fresh(k - lo));
      }
      Aligned(k);
      Aligned(lo);
      var o;
      ghost var bad;
      o, r, bad := Uvmdealloc(root, k * PGSIZE, lo * PGSIZE);
      if k > lo {
        Undone(tables0, node0, data0, old(tables), node, old(data), tables, data, root, lo, Fresh(k - lo));
      } else {
        UndoneNothing(tables0, node0, data0, tables, data, root, lo);
      }
    }

    /** A round of uvmalloc, at page k. Beyond MAXVA, walk panics once kalloc has given a page. */
    method GrowZeroed(root: nat, lo: nat, k: nat, ghost tables0: Tables, ghost node0: map<nat, Node>,
                      ghost data0: map<nat, Bytes>)
      returns (o: Outcome)
      requires Valid() && IsRoot(tables0, node0, root) && Extends(node0, node) && lo <= k && (k <= MAXVPN || k == lo)
      requires Grown(tables0, node0, data0, tables, data, root, lo, Fresh(k - lo))
      modifies `tables, `data, `free, `node, `refused
      ensures Valid() && Extends(node0, node)
      ensures o.Ok? ==> k < MAXVPN && Grown(tables0, node0, data0, tables, data, root, lo, Fresh(k + 1 - lo))
      ensures o.NoMemory? ==> Grown(tables0, node0, data0, tables, data, root, lo, Fresh(k - lo))
      ensures o.Panic? ==> k >= MAXVPN || V(Flat(tables0, root, k))
      ensures Refusals(old(refused), refused, o.NoMemory?)
    {
      if k >= MAXVPN {
        var mem := Kalloc();
        o := if mem.Some? then Panic else NoMemory;
        return;
      }
      var perm := PTE_W + PTE_X + PTE_R + PTE_U;
      o := GrowPage(root, lo, k, ZeroBytes(), perm, Fresh(k - lo), tables0, node0, data0);
      assert Fresh(k + 1 - lo) == Fresh(k - lo) + [Want(perm, ZeroBytes())];
    }

    /** The loop of uvmalloc, from page lo on. */
    method Grow(root: nat, lo: nat, newsz: nat) returns (o: Outcome)
      requires Valid() && IsRoot(tables, node, root) && lo <= PgUp(newsz) && newsz < U64
      modifies `tables, `data, `free, `node, `refused
      ensures Valid() && Extends(old(node), node)
      ensures o.Ok? ==>
                (PgUp(newsz) <= MAXVPN || PgUp(newsz) == lo)
                  && Grown(old(tables), old(node), old(data), tables, data, root, lo, Fresh(PgUp(newsz) - lo))
      ensures o.NoMemory? ==> data == old(data) && Restored(old(tables), old(node), tables, root)
      ensures o.Panic? ==>
                || PgUp(newsz) > MAXVPN
                || exists w: nat :: lo <= w < PgUp(newsz) && w < MAXVPN && V(old(Flat(tables, root, w)))
      ensures Refusals(old(refused), refused, o.NoMemory?)
    {
      var k := lo;
      GrownNothing(tables, node, data, root, lo);
      BelowUp(k, newsz);
      while k * PGSIZE < newsz
        invariant lo <= k <= PgUp(newsz) && (k <= MAXVPN || k == lo) && (k * PGSIZE < newsz <==> k < PgUp(newsz))
        invariant Valid() && Extends(old(node), node) && refused == old(refused)
        invariant Grown(old(tables), old(node), old(data), tables, data, root, lo, Fresh(k - lo))
      {
        o := GrowZeroed(root, lo, k, old(tables), old(node), old(data));
        if o.Panic? {
          return;
        }
        if o.NoMemory? {
          var r := Giveback(root, lo, k, old(tables), old(node), old(data));
          return;
        }
        k := k + 1;
        BelowUp(k, newsz);
      }
      o := Ok;
    }

    /** uvmalloc. On failure the pages it added are unmapped and released again. */
    method Uvmalloc(root: nat, oldsz: nat, newsz: nat) returns (o: Outcome, r: nat)
      requires Valid() && IsRoot(tables, node, root) && oldsz < U64 && newsz < U64
      modifies `tables, `data, `free, `node, `refused
      ensures Valid() && Extends(old(node), node)
      ensures newsz < oldsz ==> o.Ok? && r == oldsz && unchanged(this)
      ensures newsz >= oldsz && o.Ok? ==> (
                && r == newsz && PgRound(oldsz) <= PgUp(newsz)
                && (PgUp(newsz) <= MAXVPN || PgUp(newsz) == PgRound(oldsz))
                && Grown(old(tables), old(node), old(data), tables, data, root, PgRound(oldsz),
                         Fresh(PgUp(newsz) - PgRound(oldsz))))
      ensures o.NoMemory? ==> r == 0 && data == old(data) && Restored(old(tables), old(node), tables, root)
      ensures o.Panic? ==>
                || newsz > PGSIZE * MAXVPN
                || exists w: nat :: PgRound(oldsz) <= w < PgUp(newsz) && w < MAXVPN && V(old(Flat(tables, root, w)))
      ensures Refusals(old(refused), refused, o.NoMemory?)
    {
      if newsz < oldsz {
        return Ok, oldsz;
      }
      UpMonotone(oldsz, newsz);
      if PgRound(oldsz) > 0 {
        NoWrap(oldsz);
      }
      o := Grow(root, PgRound(oldsz), newsz);
      r := if o.Ok? then newsz else 0;
    }

    /** A round of uvmcopy: page k of the parent, copied to a page of its own in the child. */
    method CopyPage(parent: nat, child: nat, k: nat,
                    ghost tables0: Tables, ghost node0: map<nat, Node>, ghost data0: map<nat, Bytes>)
      returns (o: Outcome)
      requires Valid() && IsRoot(tables0, node0, parent) && IsRoot(tables0, node0, child) && parent != child
      requires Extends(node0, node)
      requires k < MAXVPN && Readable(tables0, data0.Keys, parent, k + 1)
      requires Grown(tables0, node0, data0, tables, data, child, 0, Copies(tables0, data0, parent, k))
      modifies `tables, `data, `free, `node, `refused
      ensures Valid() && Extends(node0, node)
      ensures o.Ok? ==>
                V(Flat(tables0, parent, k))
                  && Grown(tables0, node0, data0, tables, data, child, 0, Copies(tables0, data0, parent, k + 1))
      ensures o.NoMemory? ==> Grown(tables0, node0, data0, tables, data, child, 0, Copies(tables0, data0, parent, k))
      ensures o.Panic? ==> !V(Flat(tables0, parent, k)) || V(Flat(tables0, child, k))
      ensures Refusals(old(refused), refused, o.NoMemory?)
    {
      assert Flat(tables, parent, k) == Flat(tables0, parent, k);
      var t := Walk(parent, k, false);
      if t.None? {
        return Panic;
      }
      SetLeafFlat(tables, node, parent, k, 0);
      var pte := tables[t.value][Split(k).i0];
      if !V(pte) {
        return Panic;
      }
      GrownKeeps(tables0, node0, data0, tables, data, child, 0, Copies(tables0, data0, parent, k), Ppn(pte));
      o := GrowPage(child, 0, k, data[Ppn(pte)], Flags(pte), Copies(tables0, data0, parent, k), tables0, node0, data0);
    }

    /** uvmcopy's way out: uvmunmap of what was copied, of size 0 if nothing was. */
    method Uncopy(child: nat, k: nat, ghost wants: seq<Want>,
                  ghost tables0: Tables, ghost node0: map<nat, Node>, ghost data0: map<nat, Bytes>) returns (o: Outcome)
      requires Valid() && IsRoot(tables0, node0, child) && Extends(node0, node) && 0 < k == |wants| < MAXVPN
      requires forall i | 0 <= i < |wants| :: 1 < wants[i].perm < 1024
      requires Grown(tables0, node0, data0, tables, data, child, 0, wants)
      modifies `tables, `data, `free, `node, `refused
      ensures Valid() && unchanged(`node, `refused) && data == data0 && Restored(tables0, node0, tables, child) && o.Ok?
    {
      GrownOwns(tables0, node0, data0, tables, data, child, 0, wants);
      ghost var hi;
      o, hi := Uvmunmap(child, 0, k * PGSIZE, true, k);
      Undone(tables0, node0, data0, old(tables), node, old(data), tables, data, child, 0, wants);
    }

    /** The same when nothing was copied: uvmunmap runs from page 0 to the first page that is not a leaf,
        and panics there. */
    method UncopyNothing(child: nat, ghost h: nat, ghost tables0: Tables, ghost node0: map<nat, Node>,
                         ghost data0: map<nat, Bytes>)
      returns (o: Outcome)
      requires Valid() && IsRoot(tables0, node0, child) && Extends(node0, node)
      requires CanRun(tables0, child, 0, LastPage(0, 0), h) && Owns(tables0, data0.Keys, child, 0, h)
      requires Grown(tables0, node0, data0, tables, data, child, 0, [])
      modifies `tables, `data, `free, `node, `refused
      ensures Valid() && unchanged(`node, `refused) && o.Panic?
      ensures !Mapped(Flat(tables0, child, 0)) ==> data == data0 && Restored(tables0, node0, tables, child)
    {
      UndoneNothing(tables0, node0, data0, tables, data, child, 0);
      SameRun(tables0, node0, tables, data.Keys, child, h);
      assert Flat(tables, child, 0) == Flat(tables0, child, 0);
      ghost var hi;
      o, hi := Uvmunmap(child, 0, 0, true, h);
      if !Mapped(Flat(tables0, child, 0)) {
        UnmappedNone(old(tables), node, tables, old(data), data, child, hi);
        GrownStill(tables0, node0, data0, old(tables), node, tables, data, child, 0, []);
        UndoneNothing(tables0, node0, data0, tables, data, child, 0);
      }
    }

    /** uvmcopy's err label. */
    method CopyFailed(ghost parent: nat, child: nat, k: nat, ghost h: nat,
                      ghost tables0: Tables, ghost node0: map<nat, Node>, ghost data0: map<nat, Bytes>)
      returns (o: Outcome)
      requires Valid() && IsRoot(tables0, node0, parent) && IsRoot(tables0, node0, child) && Extends(node0, node)
      requires k < MAXVPN
      requires CanRun(tables0, child, 0, LastPage(0, 0), h) && Owns(tables0, data0.Keys, child, 0, h)
      requires Readable(tables0, data0.Keys, parent, k) && AllThere(tables0, parent, k)
      requires Grown(tables0, node0, data0, tables, data, child, 0, Copies(tables0, data0, parent, k))
      modifies `tables, `data, `free, `node, `refused
      ensures Valid() && unchanged(`node, `refused) && o == if k == 0 then Panic else NoMemory
      ensures k > 0 || !Mapped(Flat(tables0, child, 0)) ==> data == data0 && Restored(tables0, node0, tables, child)
    {
      ghost var copies := Copies(tables0, data0, parent, k);
      if k == 0 {
        o := UncopyNothing(child, h, tables0, node0, data0);
      } else {
        CopiesAreLeaves(tables0, data0, parent, k);
        o := Uncopy(child, k, copies, tables0, node0, data0);
        o := NoMemory;
      }
    }

    /** A round of uvmcopy, with the way out if an allocation failed. */
    method CopyRound(parent: nat, child: nat, k: nat, ghost n: nat, ghost h: nat,
                     ghost tables0: Tables, ghost node0: map<nat, Node>, ghost data0: map<nat, Bytes>)
      returns (o: Outcome, ghost failed: bool)
      requires Valid() && IsRoot(tables0, node0, parent) && IsRoot(tables0, node0, child) && parent != child
      requires Extends(node0, node)
      requires k < n && CanCopy(tables0, data0.Keys, parent, child, n, h)
      requires Copied(tables0, node0, data0, tables, data, parent, child, k)
      modifies `tables, `data, `free, `node, `refused
      ensures Valid() && Extends(node0, node)
      ensures o.Ok? ==> !failed && Copied(tables0, node0, data0, tables, data, parent, child, k + 1)
      ensures failed ==> o == if k == 0 then Panic else NoMemory
      ensures failed && (k > 0 || !Mapped(Flat(tables0, child, 0))) ==>
                data == data0 && Restored(tables0, node0, tables, child)
      ensures !failed && !o.Ok? ==> o.Panic? && (!V(Flat(tables0, parent, k)) || V(Flat(tables0, child, k)))
      ensures Refusals(old(refused), refused, failed)
    {
      failed := false;
      CanCopyGives(tables0, data0.Keys, parent, child, n, h, k);
      CanCopyGives(tables0, data0.Keys, parent, child, n, h, k + 1);
      CopiedGives(tables0, node0, data0, tables, data, parent, child, k);
      o := CopyPage(parent, child, k, tables0, node0, data0);
      if o.Ok? {
        ThereNext(tables0, parent, k);
      } else if o.NoMemory? {
        failed := true;
        o := CopyFailed(parent, child, k, h, tables0, node0, data0);
      }
    }

    /** The loop of uvmcopy. */
    method CopyPages(parent: nat, child: nat, sz: nat, ghost n: nat, ghost h: nat)
      returns (o: Outcome, ghost copied: nat, ghost failed: bool)
      requires Valid() && IsRoot(tables, node, parent) && IsRoot(tables, node, child) && parent != child && sz < U64
      requires n == (if PgUp(sz) <= MAXVPN then PgUp(sz) else MAXVPN) && CanCopy(tables, data.Keys, parent, child, n, h)
      modifies `tables, `data, `free, `node, `refused
      ensures Valid() && Extends(old(node), node) && copied <= n
      ensures o.Ok? ==>
                && !failed && copied == PgUp(sz) <= MAXVPN
                && Copied(old(tables), old(node), old(data), tables, data, parent, child, copied)
      ensures failed && (copied > 0 || !Mapped(old(Flat(tables, child, 0)))) ==>
                data == old(data) && Restored(old(tables), old(node), tables, child)
      ensures failed ==> o == if copied == 0 then Panic else NoMemory
      ensures !failed && !o.Ok? ==>
                o.Panic?
                  && (copied >= MAXVPN || !V(old(Flat(tables, parent, copied))) || V(old(Flat(tables, child, copied))))
      ensures Refusals(old(refused), refused, failed)
    {
      var k := 0;
      copied, failed := 0, false;
      ghost var tables0, node0, data0 := tables, node, data;
      CopiedNothing(tables, node, data, parent, child);
      while k * PGSIZE < sz
        invariant k <= n && copied == k && !failed && refused == old(refused)
        invariant Valid() && Extends(node0, node)
        invariant Copied(tables0, node0, data0, tables, data, parent, child, k)
      {
        BelowUp(k, sz);
        if k >= MAXVPN {
          return Panic, copied, failed;
        }
        o, failed := CopyRound(parent, child, k, n, h, tables0, node0, data0);
        if !o.Ok? {
          return;
        }
        k := k + 1;
        copied := k;
      }
      BelowUp(k, sz);
      o := Ok;
    }

    /** uvmcopy. `copied` counts the pages copied; `failed` says an allocation failed on the next one. The
        child's own pages, if it has any from page 0 on, end at page h. */
    method Uvmcopy(parent: nat, child: nat, sz: nat, ghost h: nat)
      returns (o: Outcome, ghost copied: nat, ghost failed: bool)
      requires Valid() && IsRoot(tables, node, parent) && IsRoot(tables, node, child) && parent != child && sz < U64
      requires Readable(tables, data.Keys, parent, if PgUp(sz) <= MAXVPN then PgUp(sz) else MAXVPN)
      requires CanRun(tables, child, 0, LastPage(0, 0), h) && Owns(tables, data.Keys, child, 0, h)
      modifies `tables, `data, `free, `node, `refused
      ensures Valid() && Extends(old(node), node)
      ensures o.Ok? ==> (
                && !failed && copied == PgUp(sz) <= MAXVPN
                && AllThere(old(tables), parent, copied)
                && Grown(old(tables), old(node), old(data), tables, data, child, 0,
                         Copies(old(tables), old(data), parent, copied)))
      ensures failed && (copied > 0 || !Mapped(old(Flat(tables, child, 0)))) ==>
                data == old(data) && Restored(old(tables), old(node), tables, child)
      ensures failed ==> o == if copied == 0 then Panic else NoMemory
      ensures !failed && !o.Ok? ==>
                o.Panic?
                  && (copied >= MAXVPN || !V(old(Flat(tables, parent, copied))) || V(old(Flat(tables, child, copied))))
      ensures Refusals(old(refused), refused, failed)
    {
      ghost var tables0, node0, data0, n := tables, node, data, if PgUp(sz) <= MAXVPN then PgUp(sz) else MAXVPN;
      assert CanCopy(tables, data.Keys, parent, child, n, h);
      o, copied, failed := CopyPages(parent, child, sz, n, h);
      if o.Ok? {
        CopiedGives(tables0, node0, data0, tables, data, parent, child, copied);
      }
    }
  }
}
