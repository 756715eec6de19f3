/** Growing and shrinking user memory (kernel/vm.c). */
module UserMemory {
  import opened RiscV
  import opened SwapModel
  import opened SwapOps

  function Fill(s: State, f: nat, data: Page): (t: State)
    requires Inv(s) && Held(s, f)
    ensures Inv(t) && Memory(t) == Memory(s) && Outs(t) == Outs(s) && t.tables == s.tables
    ensures Held(t, f) && Load(t.mem, f) == data
  {
    var t := s.(mem := s.mem[f := data]);
    MemoryKeeps(s, t);
    t
  }

  function Map(s: State, k: Key, p: Pte): (t: State)
    requires Inv(s) && Mappable(s, k, p)
    ensures Inv(t) && t.tables == s.tables && Outs(t) == Outs(s) - {p.ppn}
    ensures Memory(t) == Memory(s)[k := UserPage(Load(s.mem, p.ppn), p.r, p.w, p.x, p.u)]
  {
    MapEntryInv(s, k, p);
    MapEntryMemory(s, k, p);
    MapEntry(s, k, p)
  }

  /** Put `data` in the held frame of `p` and map it at `k`; the frame goes back to the
      free list when walk cannot make a table page. */
  function Install(s: State, k: Key, p: Pte, data: Page): (r: Done)
    requires Inv(s) && Held(s, p.ppn) && k !in s.ptes && p.v && !p.swapped && Root(k.root) in s.tables
    ensures Inv(r.s) && Outs(r.s) == Outs(s) - {p.ppn} && s.tables.Keys <= r.s.tables.Keys
    ensures r.ok ==> Memory(r.s) == Memory(s)[k := UserPage(data, p.r, p.w, p.x, p.u)]
    ensures !r.ok ==> Memory(r.s) == Memory(s)
  {
    var z := Fill(s, p.ppn, data);
    MemoryKeys(s);
    var w := Walk(z, k);
    MemoryKeys(w.s);
    assert p.ppn in Outs(w.s);
    if w.ok then Done(Map(w.s, k, p), true) else Done(Kfree(w.s, p.ppn), false)
  }

  /** What a caller of kalloc may rely on. */
  ghost predicate Allocated(s: State, a: Alloc) {
    && Inv(a.s) && Memory(a.s) == Memory(s) && a.s.tables == s.tables
    && (a.ok ==> Held(a.s, a.frame) && a.frame !in Outs(s) && Outs(a.s) == Outs(s) + {a.frame})
    && (!a.ok ==> Outs(a.s) == Outs(s))
  }

  /** One round of uvmalloc's loop, after its kalloc. */
  function AllocInto(s: State, a: Alloc, k: Key, w: bool, x: bool): (r: Done)
    requires Allocated(s, a) && k !in Memory(s) && Root(k.root) in s.tables
    ensures Inv(r.s) && Outs(r.s) == Outs(s) && s.tables.Keys <= r.s.tables.Keys
    ensures r.ok ==> Memory(r.s) == Memory(s)[k := ZeroPage(w, x)]
    ensures !r.ok ==> Memory(r.s) == Memory(s)
  {
    MemoryKeys(s);
    MemoryKeys(a.s);
    if a.ok then Install(a.s, k, UserPte(a.frame, w, x), Filled(0)) else Done(a.s, false)
  }

  /** One round of uvmalloc's loop. */
  function AllocPage(s: State, k: Key, w: bool, x: bool): (r: Done)
    requires Inv(s) && k !in Memory(s) && Root(k.root) in s.tables
    ensures Inv(r.s) && Outs(r.s) == Outs(s) && s.tables.Keys <= r.s.tables.Keys
    ensures r.ok ==> Memory(r.s) == Memory(s)[k := ZeroPage(w, x)]
    ensures !r.ok ==> Memory(r.s) == Memory(s)
  {
    AllocInto(s, Kalloc(s), k, w, x)
  }

  function ZeroPage(w: bool, x: bool): UserPage { UserPage(Filled(0), true, w, x, true) }

  /** PA2PTE(mem) | PTE_V | PTE_R | PTE_U | xperm */
  function UserPte(f: nat, w: bool, x: bool): Pte {
    Pte(f, true, true, w, x, true, false, false, false, false, false)
  }

  /** One round of uvmunmap's loop with do_free set. */
  function UnmapPage(s: State, k: Key): (t: State)
    requires Inv(s) && k in Memory(s)
    ensures Inv(t) && Memory(t) == Memory(s) - {k} && Outs(t) == Outs(s) && t.tables == s.tables
  {
    UnmapMemory(s, k);
    if s.ptes[k].v then
      UnmapListedInv(s, k);
      assert s.ptes[k].ppn in s.ring;
      Kfree(UnmapListed(s, k), s.ptes[k].ppn)
    else
      UnmapSwappedInv(s, k);
      UnmapSwapped(s, k)
  }

  function Range(root: nat, a: nat, b: nat): set<Key> { set v: nat | a <= v < b :: Key(root, v) }

  function Zeros(root: nat, a: nat, b: nat, w: bool, x: bool): map<Key, UserPage> {
    map k | k in Range(root, a, b) :: ZeroPage(w, x)
  }

  lemma RangeSplit(root: nat, a: nat, b: nat)
    requires a < b
    ensures Range(root, a, b) == {Key(root, a)} + Range(root, a + 1, b)
    ensures Key(root, a) !in Range(root, a + 1, b)
  {}

  lemma RangeGrow(root: nat, a: nat, b: nat)
    requires a <= b
    ensures Range(root, a, b + 1) == Range(root, a, b) + {Key(root, b)}
  {}

  lemma LessRange(m: map<Key, UserPage>, root: nat, a: nat, b: nat)
    requires a < b && Range(root, a, b) <= m.Keys
    ensures Key(root, a) in m && Range(root, a + 1, b) <= (m - {Key(root, a)}).Keys
    ensures m - {Key(root, a)} - Range(root, a + 1, b) == m - Range(root, a, b)
  {
    RangeSplit(root, a, b);
  }

  lemma MoreZeros(m: map<Key, UserPage>, root: nat, start: nat, a: nat, b: nat, w: bool, x: bool)
    requires start <= a < b && Range(root, start, a) <= m.Keys && Range(root, a, b) !! m.Keys
    ensures var n := m[Key(root, a) := ZeroPage(w, x)];
      && Key(root, a) !in m
      && Range(root, start, a + 1) <= n.Keys && Range(root, a + 1, b) !! n.Keys
      && n + Zeros(root, a + 1, b, w, x) == m + Zeros(root, a, b, w, x)
      && n - Range(root, start, a + 1) == m - Range(root, start, a)
  {
    RangeSplit(root, a, b);
    RangeGrow(root, start, a);
  }

  /** uvmunmap(pagetable, a, b - a, 1), page numbers for addresses. */
  function UvmUnmap(s: State, root: nat, a: nat, b: nat): (t: State)
    requires Inv(s) && Range(root, a, b) <= Memory(s).Keys
    ensures Inv(t) && Memory(t) == Memory(s) - Range(root, a, b)
    ensures Outs(t) == Outs(s) && t.tables == s.tables
    decreases b - a
  {
    if a >= b then s else
    LessRange(Memory(s), root, a, b);
    UvmUnmap(UnmapPage(s, Key(root, a)), root, a + 1, b)
  }

  /** uvmalloc's loop from page `a`; everything since `start` is undone on failure. */
  function UvmAlloc(s: State, root: nat, start: nat, a: nat, b: nat, w: bool, x: bool): (r: Done)
    requires Inv(s) && Root(root) in s.tables && start <= a
    requires Range(root, start, a) <= Memory(s).Keys && Range(root, a, b) !! Memory(s).Keys
    ensures Inv(r.s) && Outs(r.s) == Outs(s) && s.tables.Keys <= r.s.tables.Keys
    ensures r.ok ==> Memory(r.s) == Memory(s) + Zeros(root, a, b, w, x)
    ensures !r.ok ==> Memory(r.s) == Memory(s) - Range(root, start, a)
    decreases b - a
  {
    if a >= b then Done(s, true) else
    MoreZeros(Memory(s), root, start, a, b, w, x);
    var d := AllocPage(s, Key(root, a), w, x);
    if d.ok then UvmAlloc(d.s, root, start, a + 1, b, w, x)
    else Done(UvmUnmap(d.s, root, start, a), false)
  }

  /** A frame handed out by kalloc is no root. */
  lemma RootFresh(s: State, f: nat)
    requires Inv(s) && Held(s, f)
    ensures Root(f) !in s.tables
  {
    var hung := Hung(s.tables, Root(f));
  }

  /** uvmcreate: a zeroed root table. */
  function CreateIn(s: State, a: Alloc): (r: Done)
    requires Inv(s) && Allocated(s, a)
    ensures Inv(r.s) && Memory(r.s) == Memory(s) && Outs(r.s) == Outs(s)
    ensures r.ok <==> a.ok
    ensures r.ok ==> Root(a.frame) !in s.tables && r.s.tables == s.tables[Root(a.frame) := a.frame]
  {
    if !a.ok then Done(a.s, false) else
    RootFresh(a.s, a.frame);
    Done(NewTable(a.s, Root(a.frame), a.frame), true)
  }
}
