/** Freeing page tables: freewalk, uvmfree and proc_freepagetable. */
module FreeTables {
  import opened Lists
  import opened PageTable

  /** pte & (PTE_R|PTE_W|PTE_X). */
  predicate Rwx(pte: nat) { pte / 2 % 8 != 0 }

  lemma PlainPointer(pte: nat)
    requires Flags(pte) == 1
    ensures !Rwx(pte)
  {
    assert pte == 2 * (512 * Ppn(pte)) + 1;
    assert pte / 2 == 8 * (64 * Ppn(pte));
  }

  // ---- The pages of a tree

  /** The page at place u is the one at p or hangs below it. */
  predicate Beneath(u: Node, p: Node) {
    match p
    case Root(r) => u.r == r
    case Mid(r, i2) => u == p || (u.Leaf? && u.r == r && u.i2 == i2)
    case Leaf(_, _, _) => u == p
  }

  /** Below entry i of the page at p. */
  predicate Under(u: Node, p: Node, i: nat) {
    match p
    case Root(r) => u.r == r && !u.Root? && u.i2 == i
    case Mid(r, i2) => u.Leaf? && u.r == r && u.i2 == i2 && u.i1 == i
    case Leaf(_, _, _) => false
  }

  ghost function Tree(node: map<nat, Node>, t: nat): set<nat>
    requires t in node
  {
    set u | u in node && Beneath(node[u], node[t])
  }

  /** The pages below the first n entries of t. */
  ghost function Part(node: map<nat, Node>, t: nat, n: nat): set<nat>
    requires t in node
  {
    set u, i: nat | i < n && u in node && Under(node[u], node[t], i) :: u
  }

  lemma OnePlace(tables: Tables, node: map<nat, Node>, t: nat, u: nat)
    requires Forest(tables, node) && t in node && u in node && node[u] == node[t]
    ensures u == t
  {
    assert PlaceOk(tables, node, t) && PlaceOk(tables, node, u);
  }

  lemma WholeTree(tables: Tables, node: map<nat, Node>, t: nat)
    requires Forest(tables, node) && t in node
    ensures Tree(node, t) == Part(node, t, ENTRIES) + {t} && t !in Part(node, t, ENTRIES)
  {
    forall u | u in Tree(node, t) && u != t
      ensures u in Part(node, t, ENTRIES)
    {
      assert PlaceOk(tables, node, u) && PlaceOk(tables, node, t);
      if node[u] == node[t] {
        OnePlace(tables, node, t, u);
      }
      var i := if node[t].Root? then node[u].i2 else node[u].i1;
      assert Under(node[u], node[t], i);
    }
  }

  /** What hangs below a page's entry is the tree of the page it leads to. */
  lemma UnderEntry(tables: Tables, node: map<nat, Node>, t: nat, i: nat, u: nat)
    requires Forest(tables, node) && t in node && i < ENTRIES && u in node
    requires !node[t].Leaf?
    ensures var c := Child(tables, t, i);
            && (c.Some? ==> c.value in node && node[c.value] == ChildPlace(node[t], i))
            && (Under(node[u], node[t], i) <==> c.Some? && u in Tree(node, c.value))
  {
    assert EntryOk(tables, node, t, i) && PlaceOk(tables, node, t) && PlaceOk(tables, node, u);
  }

  lemma PartNext(tables: Tables, node: map<nat, Node>, t: nat, i: nat, n: nat)
    requires Forest(tables, node) && t in node && i < ENTRIES && n == i + 1 && !node[t].Leaf?
    ensures var c := Child(tables, t, i);
            && (c.Some? ==> c.value in node && node[c.value] == ChildPlace(node[t], i))
            && (c.Some? ==> Part(node, t, n) == Part(node, t, i) + Tree(node, c.value))
            && (c.Some? ==> Part(node, t, i) !! Tree(node, c.value) && t !in Tree(node, c.value))
            && (c.None? ==> Part(node, t, n) == Part(node, t, i))
  {
    UnderEntry(tables, node, t, i, t);
    var c := Child(tables, t, i);
    forall u | u in node
      ensures Under(node[u], node[t], i) <==> c.Some? && u in Tree(node, c.value)
    {
      UnderEntry(tables, node, t, i, u);
    }
    assert forall u | u in Part(node, t, i) :: !Under(node[u], node[t], i);
    assert forall u | u in Part(node, t, n) && u !in Part(node, t, i) :: Under(node[u], node[t], i);
  }

  /** Entry i of page u, if that is a leaf page. */
  ghost function Entry(tables: Tables, node: map<nat, Node>, u: nat, i: nat): nat {
    if u in tables && u in node && node[u].Leaf? && i < |tables[u]| then tables[u][i] else 0
  }

  /** No leaf page of the tree has a valid entry. */
  ghost predicate Bald(tables: Tables, node: map<nat, Node>, us: set<nat>) {
    forall u, i: nat {:trigger Entry(tables, node, u, i)} | u in us :: !V(Entry(tables, node, u, i))
  }

  /** Some leaf page of the tree has a valid entry, with or without PTE_R, PTE_W or PTE_X. */
  ghost predicate HasLeaf(tables: Tables, node: map<nat, Node>, us: set<nat>, rwx: bool) {
    exists u, i: nat :: u in us && V(Entry(tables, node, u, i)) && Rwx(Entry(tables, node, u, i)) == rwx
  }

  ghost predicate Intact(tables0: Tables, tables: Tables, us: set<nat>) {
    forall u | u in us :: u in tables0 && u in tables && tables[u] == tables0[u]
  }

  function Level(p: Node): nat { if p.Root? then 2 else if p.Mid? then 1 else 0 }

  /** LeafLeft is the panic. Astray: freewalk takes a leaf without PTE_R, PTE_W and PTE_X for a page table. */
  datatype Freed = Freed | LeafLeft | Astray

  /** The pages us are gone from the tables; of the others only t has changed, in its first n entries. */
  ghost predicate Left(was: Tables, wasFree: set<nat>, tables: Tables, free: set<nat>, t: nat, us: set<nat>,
                       page: seq<nat>, n: nat) {
    && tables.Keys == was.Keys - us && free == wasFree + us
    && (forall u {:trigger tables[u]} | u in tables && u != t :: tables[u] == was[u])
    && t in tables && |tables[t]| == ENTRIES == |page|
    && (forall j {:trigger tables[t][j]} | n <= j < ENTRIES :: tables[t][j] == page[j])
  }

  lemma LeftLess(was: Tables, wasFree: set<nat>, tables: Tables, free: set<nat>, t: nat, us: set<nat>, page: seq<nat>,
                 i: nat, vs: set<nat>, n: nat)
    requires Left(was, wasFree, tables, free, t, us, page, i) && i < ENTRIES && n == i + 1 && t !in vs
    ensures Left(was, wasFree, Put(tables - vs, t, i, 0), free + vs, t, us + vs, page, n)
  {
    var tables1 := tables - vs;
    var tables2 := Put(tables1, t, i, 0);
    assert tables1.Keys == was.Keys - (us + vs);
    assert forall j | n <= j < ENTRIES :: tables2[t][j] == tables1[t][j];
  }

  /** freewalk has freed what hangs below the first n entries of t, and zeroed those entries. */
  ghost predicate Walked(tables0: Tables, node0: map<nat, Node>, was: Tables, wasFree: set<nat>, tables: Tables,
                         free: set<nat>, t: nat, n: nat, gone: multiset<nat>)
  {
    && t in node0 && t in tables0 && gone == multiset(Part(node0, t, n))
    && (node0[t].Leaf? ==> forall j | 0 <= j < n && j < |tables0[t]| :: !V(tables0[t][j]))
    && Left(was, wasFree, tables, free, t, Part(node0, t, n), tables0[t], n)
    && Bald(tables0, node0, Part(node0, t, n))
  }

  lemma NothingWalked(tables0: Tables, node0: map<nat, Node>, tables: Tables, free: set<nat>, t: nat)
    requires Forest(tables0, node0) && t in node0 && Intact(tables0, tables, Tree(node0, t))
    ensures Walked(tables0, node0, tables, free, tables, free, t, 0, multiset{}) && Part(node0, t, 0) == {}
  {
    assert t in Tree(node0, t) && |tables0[t]| == ENTRIES;
  }

  lemma UnionCount(us: set<nat>, vs: set<nat>)
    requires us !! vs
    ensures multiset(us + vs) == multiset(us) + multiset(vs)
  {
  }

  lemma BothBald(tables: Tables, node: map<nat, Node>, us: set<nat>, vs: set<nat>)
    requires Bald(tables, node, us) && Bald(tables, node, vs)
    ensures Bald(tables, node, us + vs)
  {
  }

  /** An entry that leads to a tree, now freed, and is zeroed. */
  lemma TreeWalked(tables0: Tables, node0: map<nat, Node>, was: Tables, wasFree: set<nat>, tables: Tables,
                   free: set<nat>, t: nat, i: nat, gone: multiset<nat>, c: nat, tables': Tables, free': set<nat>,
                   n: nat, gone': multiset<nat>)
    requires Forest(tables0, node0) && t in node0 && !node0[t].Leaf? && i < ENTRIES && n == i + 1
    requires Child(tables0, t, i) == Some(c) && c in node0 && Bald(tables0, node0, Tree(node0, c))
    requires Walked(tables0, node0, was, wasFree, tables, free, t, i, gone) && gone' == gone + multiset(Tree(node0, c))
    requires t in tables - Tree(node0, c) && tables' == Put(tables - Tree(node0, c), t, i, 0)
    requires free' == free + Tree(node0, c)
    ensures Walked(tables0, node0, was, wasFree, tables', free', t, n, gone')
  {
    PartNext(tables0, node0, t, i, n);
    UnionCount(Part(node0, t, i), Tree(node0, c));
    LeftLess(was, wasFree, tables, free, t, Part(node0, t, i), tables0[t], i, Tree(node0, c), n);
    BothBald(tables0, node0, Part(node0, t, i), Tree(node0, c));
  }

  /** An invalid entry. */
  lemma NoneWalked(tables0: Tables, node0: map<nat, Node>, was: Tables, wasFree: set<nat>, tables: Tables,
                   free: set<nat>, t: nat, i: nat, gone: multiset<nat>, n: nat)
    requires Forest(tables0, node0) && t in node0 && i < ENTRIES && n == i + 1
    requires Walked(tables0, node0, was, wasFree, tables, free, t, i, gone) && !V(tables0[t][i])
    ensures Walked(tables0, node0, was, wasFree, tables, free, t, n, gone)
  {
    if !node0[t].Leaf? {
      PartNext(tables0, node0, t, i, n);
    }
  }

  lemma MoreLeaf(tables: Tables, node: map<nat, Node>, us: set<nat>, vs: set<nat>, rwx: bool)
    requires HasLeaf(tables, node, us, rwx) && us <= vs
    ensures HasLeaf(tables, node, vs, rwx)
  {
    var u, i: nat :| u in us && V(Entry(tables, node, u, i)) && Rwx(Entry(tables, node, u, i)) == rwx;
    assert u in vs;
  }

  /** A valid entry above the leaves leads to a tree that is still to be freed. */
  lemma TreeIntact(tables0: Tables, node0: map<nat, Node>, was: Tables, wasFree: set<nat>, tables: Tables,
                   free: set<nat>, t: nat, i: nat, gone: multiset<nat>)
    requires Forest(tables0, node0) && t in node0 && !node0[t].Leaf? && i < ENTRIES
    requires Walked(tables0, node0, was, wasFree, tables, free, t, i, gone) && Intact(tables0, was, Tree(node0, t))
    requires V(tables[t][i])
    ensures var c := Ppn(tables[t][i]);
            && Child(tables0, t, i) == Some(c) && c in node0 && Level(node0[c]) == Level(node0[t]) - 1
            && Tree(node0, c) <= Tree(node0, t) && t !in Tree(node0, c) && Intact(tables0, tables, Tree(node0, c))
            && !Rwx(tables[t][i])
  {
    var c := Ppn(tables[t][i]);
    PartNext(tables0, node0, t, i, i + 1);
    assert EntryOk(tables0, node0, t, i);
    PlainPointer(tables[t][i]);
    assert Tree(node0, c) <= Tree(node0, t);
    forall u | u in Tree(node0, c)
      ensures u in tables && tables[u] == tables0[u]
    {
      assert was[u] == tables0[u];
    }
  }

  lemma Finished(tables0: Tables, node0: map<nat, Node>, was: Tables, wasFree: set<nat>, tables: Tables,
                 free: set<nat>, t: nat, gone: multiset<nat>)
    requires Forest(tables0, node0) && Walked(tables0, node0, was, wasFree, tables, free, t, ENTRIES, gone)
    ensures tables - {t} == was - Tree(node0, t) && free + {t} == wasFree + Tree(node0, t)
    ensures Bald(tables0, node0, Tree(node0, t))
    ensures gone + multiset{t} == multiset(Tree(node0, t))
  {
    WholeTree(tables0, node0, t);
  }

  /** freewalk, when the pages of t's tree are as they were in a forest. On success each of them, and no other, has been
      passed to kfree, once. */
  method Freewalk(m: Memory, t: nat, level: nat, ghost tables0: Tables, ghost node0: map<nat, Node>)
    returns (o: Freed, ghost gone: multiset<nat>)
    requires Forest(tables0, node0) && t in node0 && level == Level(node0[t])
    requires Intact(tables0, m.tables, Tree(node0, t))
    modifies m`tables, m`free
    ensures o.Freed? <==> Bald(tables0, node0, Tree(node0, t))
    ensures o.Freed? ==> m.tables == old(m.tables) - Tree(node0, t) && m.free == old(m.free) + Tree(node0, t)
    ensures o.Freed? ==> gone == multiset(Tree(node0, t))
    ensures !o.Freed? ==> HasLeaf(tables0, node0, Tree(node0, t), o.LeafLeft?)
    decreases level
  {
    ghost var was, wasFree, n: nat := m.tables, m.free, 0;
    gone := multiset{};
    NothingWalked(tables0, node0, was, wasFree, t);
    var i := 0;
    while i < ENTRIES
      invariant i == n <= ENTRIES && Walked(tables0, node0, was, wasFree, m.tables, m.free, t, n, gone)
    {
      o, n, gone := FreeEntry(m, t, i, level, was, wasFree, gone, tables0, node0);
      if !o.Freed? {
        return;
      }
      i := i + 1;
    }
    Finished(tables0, node0, was, wasFree, m.tables, m.free, t, gone);
    m.tables, m.free := m.tables - {t}, m.free + {t};
    gone := gone + multiset{t};
    o := Freed;
  }

  /** One entry of freewalk's loop. */
  method FreeEntry(m: Memory, t: nat, i: nat, level: nat, ghost was: Tables, ghost wasFree: set<nat>,
                   ghost before: multiset<nat>, ghost tables0: Tables, ghost node0: map<nat, Node>)
    returns (o: Freed, ghost n: nat, ghost gone: multiset<nat>)
    requires Forest(tables0, node0) && t in node0 && level == Level(node0[t]) && i < ENTRIES
    requires Intact(tables0, was, Tree(node0, t))
    requires Walked(tables0, node0, was, wasFree, m.tables, m.free, t, i, before)
    modifies m`tables, m`free
    ensures n == i + 1 && (o.Freed? ==> Walked(tables0, node0, was, wasFree, m.tables, m.free, t, n, gone))
    ensures !o.Freed? ==> HasLeaf(tables0, node0, Tree(node0, t), o.LeafLeft?)
    decreases level, 0
  {
    n, gone := i + 1, before;
    var pte := m.tables[t][i];
    ghost var tables1, free1 := m.tables, m.free;
    if V(pte) && level > 0 {
      TreeIntact(tables0, node0, was, wasFree, tables1, free1, t, i, before);
    }
    if V(pte) && !Rwx(pte) {
      if level == 0 {
        assert t in Tree(node0, t) && Entry(tables0, node0, t, i) == pte;
        return Astray, n, gone;
      }
      ghost var more;
      o, more := Freewalk(m, Ppn(pte), level - 1, tables0, node0);
      gone := gone + more;
      if o.Freed? {
        m.tables := Put(m.tables, t, i, 0);
        TreeWalked(tables0, node0, was, wasFree, tables1, free1, t, i, before, Ppn(pte), m.tables, m.free, n, gone);
      } else {
        MoreLeaf(tables0, node0, Tree(node0, Ppn(pte)), Tree(node0, t), o.LeafLeft?);
      }
    } else if V(pte) {
      assert t in Tree(node0, t) && Entry(tables0, node0, t, i) == pte;
      o := LeafLeft;
    } else {
      NoneWalked(tables0, node0, was, wasFree, tables1, free1, t, i, before, n);
      o := Freed;
    }
  }

  // ---- A root's tree and its flat map

  lemma JoinSplit(i2: nat, i1: nat, i0: nat)
    requires i2 < TOPS && i1 < ENTRIES && i0 < ENTRIES
    ensures var w := 262144 * i2 + 512 * i1 + i0; w < MAXVPN && Split(w) == Vpn(i2, i1, i0)
  {
    var w := 262144 * i2 + 512 * i1 + i0;
    assert w == 512 * (512 * i2 + i1) + i0;
    assert w / 512 == 512 * i2 + i1 && w % 512 == i0;
  }

  /** The leaf pages below a root have the entries of its flat map, and no others. */
  lemma EntryFlat(tables: Tables, node: map<nat, Node>, r: nat, u: nat, i: nat) returns (w: nat)
    requires Forest(tables, node) && IsRoot(tables, node, r) && u in Tree(node, r) && V(Entry(tables, node, u, i))
    ensures w < MAXVPN && Flat(tables, r, w) == Entry(tables, node, u, i)
  {
    assert PlaceOk(tables, node, u) && |tables[u]| == ENTRIES;
    var p := node[u];
    JoinSplit(p.i2, p.i1, i);
    w := 262144 * p.i2 + 512 * p.i1 + i;
  }

  lemma FlatEntry(tables: Tables, node: map<nat, Node>, r: nat, w: nat)
    requires Forest(tables, node) && IsRoot(tables, node, r) && w < MAXVPN && V(Flat(tables, r, w))
    ensures exists u, i: nat :: u in Tree(node, r) && Entry(tables, node, u, i) == Flat(tables, r, w)
  {
    var a := Split(w);
    LeafPlace(tables, node, r, a.i2, a.i1);
    var u := LeafTable(tables, r, a.i2, a.i1).value;
    assert u in Tree(node, r) && Entry(tables, node, u, a.i0) == Flat(tables, r, w);
  }

  ghost predicate NoPages(tables: Tables, r: nat) {
    forall w: nat {:trigger Flat(tables, r, w)} | w < MAXVPN :: !V(Flat(tables, r, w))
  }

  lemma BaldFlat(tables: Tables, node: map<nat, Node>, r: nat)
    requires Forest(tables, node) && IsRoot(tables, node, r)
    ensures Bald(tables, node, Tree(node, r)) <==> NoPages(tables, r)
  {
    if !Bald(tables, node, Tree(node, r)) {
      var u, i: nat :| u in Tree(node, r) && V(Entry(tables, node, u, i));
      var w := EntryFlat(tables, node, r, u, i);
      assert V(Flat(tables, r, w));
    }
    if !NoPages(tables, r) {
      var w: nat :| w < MAXVPN && V(Flat(tables, r, w));
      FlatEntry(tables, node, r, w);
    }
  }

  /** A forest without one of its trees: the other roots translate as before. */
  lemma Felled(tables: Tables, node: map<nat, Node>, r: nat)
    requires Forest(tables, node) && IsRoot(tables, node, r)
    ensures var gone := Tree(node, r);
            && Forest(tables - gone, node - gone)
            && SameFlat(tables - gone, node - gone, tables) && r !in tables - gone
  {
    var gone := Tree(node, r);
    var tables', node' := tables - gone, node - gone;
    forall t, i: nat | t in tables' && i < ENTRIES
      ensures EntryOk(tables', node', t, i)
    {
      assert EntryOk(tables, node, t, i);
    }
    forall t | t in tables'
      ensures PlaceOk(tables', node', t)
    {
      assert PlaceOk(tables, node, t);
      if node[t].Leaf? {
        LeafPlace(tables, node, node[t].r, node[t].i2, node[t].i1);
      }
    }
    forall q, v: nat | IsRoot(tables', node', q) && v < MAXVPN
      ensures Flat(tables, q, v) == Flat(tables', q, v)
    {
      LeafPlace(tables, node, q, Split(v).i2, Split(v).i1);
    }
  }

  lemma MovedAll(tables: Tables, data: map<nat, seq<int>>, free: set<nat>, pages: set<nat>, us: set<nat>)
    requires Partition(tables, data, free, pages) && us <= tables.Keys
    ensures Partition(tables - us, data, free + us, pages)
  {
    forall p: nat
      ensures Uses(tables - us, data, free + us, p) == if p in pages then 1 else 0
    {
      assert Uses(tables, data, free, p) == if p in pages then 1 else 0;
    }
  }

  // ---- Freeing a process's memory

  datatype Ended = Done | Panicked | WentAstray

  /** uvmunmap can take pages 0..n of root r, and there is no page beyond. */
  ghost predicate JustPages(tables: Tables, r: nat, n: nat) {
    && n <= MAXVPN
    && (forall w: nat {:trigger Flat(tables, r, w)} | w < n :: Mapped(Flat(tables, r, w)))
    && (forall w: nat {:trigger Flat(tables, r, w)} | n <= w < MAXVPN :: !V(Flat(tables, r, w)))
  }

  lemma Cleared(tables: Tables, node: map<nat, Node>, tables': Tables, r: nat, n: nat)
    requires IsRoot(tables, node, r) && LeavesCleared(tables, node, tables', r, 0, n)
    ensures NoPages(tables', r) <==> JustPages(tables, r, n)
  {
    if NoPages(tables', r) {
      forall w: nat | n <= w < MAXVPN
        ensures !V(Flat(tables, r, w))
      {
        assert Flat(tables', r, w) == Flat(tables, r, w);
      }
    }
  }

  lemma OthersSame(tables: Tables, node: map<nat, Node>, tables1: Tables, r: nat, n: nat, tables2: Tables,
                   node2: map<nat, Node>)
    requires IsRoot(tables, node, r) && LeavesCleared(tables, node, tables1, r, 0, n)
    requires tables2.Keys == node2.Keys && node2 == node - Tree(node, r) && tables.Keys == node.Keys
    requires SameFlat(tables2, node2, tables1)
    ensures SameFlat(tables2, node2, tables)
  {
    assert r in Tree(node, r);
    forall q, v: nat | IsRoot(tables2, node2, q) && v < MAXVPN
      ensures Flat(tables, q, v) == Flat(tables2, q, v)
    {
      assert IsRoot(tables, node, q) && q != r;
      assert Flat(tables1, q, v) == Flat(tables, q, v);
    }
  }

  /** The tree of a root that maps nothing any more is freed, and what remains is a forest. */
  method FreeRoot(m: Memory, root: nat) returns (o: Freed, ghost gone: multiset<nat>)
    requires m.Valid() && IsRoot(m.tables, m.node, root)
    modifies m`tables, m`free, m`node, m`refused
    ensures o.Freed? <==> NoPages(old(m.tables), root)
    ensures o.Freed? ==>
              && m.Valid() && m.node == old(m.node) - Tree(old(m.node), root)
              && m.free == old(m.free) + Tree(old(m.node), root) && gone == multiset(Tree(old(m.node), root))
              && SameFlat(m.tables, m.node, old(m.tables))
    ensures o.Astray? ==>
              exists w: nat :: w < MAXVPN && V(old(Flat(m.tables, root, w))) && !Rwx(old(Flat(m.tables, root, w)))
  {
    ghost var tables0, node0 := m.tables, m.node;
    BaldFlat(tables0, node0, root);
    o, gone := Freewalk(m, root, 2, tables0, node0);
    if o.Freed? {
      Felled(tables0, node0, root);
      MovedAll(tables0, m.data, old(m.free), m.pages, Tree(node0, root));
      m.node := node0 - Tree(node0, root);
    } else if o.Astray? {
      ghost var u, i: nat :|
        u in Tree(node0, root) && V(Entry(tables0, node0, u, i)) && Rwx(Entry(tables0, node0, u, i)) == false;
      ghost var w := EntryFlat(tables0, node0, root, u, i);
    }
  }

  /** uvmfree, with memory to be released as uvmunmap asks. It frees the memory and the page table just if the process
      has its first sz bytes mapped, one at least, and nothing else. */
  method Uvmfree(m: Memory, root: nat, sz: nat, ghost h: nat) returns (o: Ended, ghost gone: multiset<nat>)
    requires m.Valid() && IsRoot(m.tables, m.node, root) && sz < U64
    requires CanRun(m.tables, root, 0, LastPage(0, sz), h) && Owns(m.tables, m.data.Keys, root, 0, h)
    modifies m`tables, m`data, m`free, m`node, m`refused
    ensures o.Done? <==> sz > 0 && JustPages(old(m.tables), root, PgUp(sz))
    ensures o.Done? ==>
              && m.Valid() && m.node == old(m.node) - Tree(old(m.node), root)
              && gone == multiset(Tree(old(m.node), root))
              && m.data == old(m.data) - LeafPages(old(m.tables), root, 0, PgUp(sz))
              && SameFlat(m.tables, m.node, old(m.tables))
  {
    gone := multiset{};
    ghost var tables0, node0 := m.tables, m.node;
    ghost var hi;
    var u;
    if sz > 0 {
      LastOf(0, sz);
    }
    u, hi := m.Uvmunmap(root, 0, sz, true, h);
    if u.Panic? {
      return Panicked, gone;
    }
    ghost var tables1 := m.tables;
    Cleared(tables0, node0, tables1, root, hi);
    var f;
    f, gone := FreeRoot(m, root);
    if f.Freed? {
      OthersSame(tables0, node0, tables1, root, hi, m.tables, m.node);
    }
    o := if f.Freed? then Done else if f.LeafLeft? then Panicked else WentAstray;
  }

  /** TRAMPOLINE and TRAPFRAME, as page numbers. */
  const TRAMPOLINE: nat := MAXVPN - 1
  const TRAPFRAME: nat := MAXVPN - 2

  /** One page is unmapped, its memory kept. */
  method Unmap(m: Memory, root: nat, v: nat) returns (ok: bool)
    requires m.Valid() && IsRoot(m.tables, m.node, root) && v < MAXVPN
    modifies m`tables, m`data, m`free, m`node, m`refused
    ensures m.Valid() && unchanged(m`node, m`data) && m.tables.Keys == old(m.tables.Keys)
    ensures ok <==> Mapped(old(Flat(m.tables, root, v)))
    ensures ok ==> FlatPut(old(m.tables), m.node, m.tables, root, v, 0)
  {
    assert LastPage(v * PGSIZE, PGSIZE) == v && v * PGSIZE / PGSIZE == v;
    var o;
    ghost var hi;
    o, hi := m.Uvmunmap(root, v * PGSIZE, PGSIZE, false, if Mapped(Flat(m.tables, root, v)) then v + 1 else v);
    ok := o.Ok?;
  }

  /** Root r maps pages 0..n, the trampoline and the trap frame, and nothing else. */
  ghost predicate JustUser(tables: Tables, r: nat, n: nat) {
    && n <= TRAPFRAME
    && (forall w: nat {:trigger Flat(tables, r, w)} | w < n :: Mapped(Flat(tables, r, w)))
    && (forall w: nat {:trigger Flat(tables, r, w)} | n <= w < TRAPFRAME :: !V(Flat(tables, r, w)))
  }

  /** The two pages at the top are gone; everything else translates as before. */
  ghost predicate TopCleared(tables: Tables, node: map<nat, Node>, tables': Tables, r: nat) {
    forall q, w: nat {:trigger Flat(tables', q, w)} | IsRoot(tables, node, q) && w < MAXVPN ::
      Flat(tables', q, w) == if q == r && w >= TRAPFRAME then 0 else Flat(tables, q, w)
  }

  /** The two unmappings that come first. */
  method UnmapTop(m: Memory, root: nat) returns (ok: bool)
    requires m.Valid() && IsRoot(m.tables, m.node, root)
    modifies m`tables, m`data, m`free, m`node, m`refused
    ensures m.Valid() && unchanged(m`node, m`data) && m.tables.Keys == old(m.tables.Keys)
    ensures ok <==> Mapped(old(Flat(m.tables, root, TRAMPOLINE))) && Mapped(old(Flat(m.tables, root, TRAPFRAME)))
    ensures ok ==> TopCleared(old(m.tables), m.node, m.tables, root)
  {
    ok := Unmap(m, root, TRAMPOLINE);
    if ok {
      assert Flat(m.tables, root, TRAPFRAME) == old(Flat(m.tables, root, TRAPFRAME));
      ok := Unmap(m, root, TRAPFRAME);
    }
  }

  lemma TopOff(tables: Tables, node: map<nat, Node>, tables': Tables, r: nat, mem: set<nat>, n: nat, last: nat, h: nat)
    requires IsRoot(tables, node, r) && TopCleared(tables, node, tables', r) && h <= TRAPFRAME
    requires h == TRAPFRAME || h == last + 1 || !Mapped(Flat(tables, r, h))
    requires Owns(tables, mem, r, 0, h)
    ensures CanRun(tables', r, 0, last, h) && Owns(tables', mem, r, 0, h)
    ensures JustPages(tables', r, n) <==> JustUser(tables, r, n)
  {
    forall w: nat | w < MAXVPN
      ensures Flat(tables', r, w) == if w >= TRAPFRAME then 0 else Flat(tables, r, w)
    {
    }
    if JustPages(tables', r, n) {
      assert !Mapped(Flat(tables', r, TRAPFRAME));
      forall w: nat | w < TRAPFRAME
        ensures if w < n then Mapped(Flat(tables, r, w)) else !V(Flat(tables, r, w))
      {
        assert Flat(tables', r, w) == Flat(tables, r, w);
      }
    }
  }

  lemma TopSame(tables: Tables, node: map<nat, Node>, tables1: Tables, r: nat, n: nat, tables2: Tables,
                node2: map<nat, Node>)
    requires IsRoot(tables, node, r) && TopCleared(tables, node, tables1, r) && n <= TRAPFRAME
    requires tables2.Keys == node2.Keys && node2 == node - Tree(node, r) && tables.Keys == node.Keys
    requires SameFlat(tables2, node2, tables1)
    ensures SameFlat(tables2, node2, tables) && LeafPages(tables1, r, 0, n) == LeafPages(tables, r, 0, n)
  {
    assert r in Tree(node, r);
    forall q, v: nat | IsRoot(tables2, node2, q) && v < MAXVPN
      ensures Flat(tables, q, v) == Flat(tables2, q, v)
    {
      assert IsRoot(tables, node, q) && q != r;
      assert Flat(tables1, q, v) == Flat(tables, q, v);
    }
    forall w: nat | w < n
      ensures Flat(tables1, r, w) == Flat(tables, r, w)
    {
    }
  }

  /** proc_freepagetable, for a process whose pages below h came from kalloc. With sz == 0 neither its memory nor its
      page table is released. */
  method FreePagetable(m: Memory, root: nat, sz: nat, ghost h: nat) returns (o: Ended, ghost gone: multiset<nat>)
    requires m.Valid() && IsRoot(m.tables, m.node, root) && sz < U64
    requires sz > 0 ==> h <= TRAPFRAME && Owns(m.tables, m.data.Keys, root, 0, h)
    requires sz > 0 ==> h == TRAPFRAME || h == PgUp(sz) || !Mapped(Flat(m.tables, root, h))
    modifies m`tables, m`data, m`free, m`node, m`refused
    ensures o.Done? <==>
              && Mapped(old(Flat(m.tables, root, TRAMPOLINE))) && Mapped(old(Flat(m.tables, root, TRAPFRAME)))
              && (sz == 0 || JustUser(old(m.tables), root, PgUp(sz)))
    ensures o.Done? && sz > 0 ==>
              && m.Valid() && m.node == old(m.node) - Tree(old(m.node), root)
              && gone == multiset(Tree(old(m.node), root))
              && m.data == old(m.data) - LeafPages(old(m.tables), root, 0, PgUp(sz))
              && SameFlat(m.tables, m.node, old(m.tables))
    ensures sz == 0 ==> m.Valid() && unchanged(m`node, m`data) && m.tables.Keys == old(m.tables.Keys)
  {
    gone := multiset{};
    ghost var tables0, node0 := m.tables, m.node;
    var ok := UnmapTop(m, root);
    if !ok {
      return Panicked, gone;
    }
    if sz == 0 {
      return Done, gone;
    }
    ghost var tables1 := m.tables;
    LastOf(0, sz);
    TopOff(tables0, node0, tables1, root, m.data.Keys, PgUp(sz), LastPage(0, sz), h);
    o, gone := Uvmfree(m, root, sz, h);
    if o.Done? {
      TopSame(tables0, node0, tables1, root, PgUp(sz), m.tables, m.node);
    }
  }
}
