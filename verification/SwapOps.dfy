/** kalloc, kfree, swapout, swapin and walk as functions on the state of `SwapModel`, and what
    each of them keeps. */
module SwapOps {
  import opened RiscV
  import opened SwapModel

  datatype Done = Done(s: State, ok: bool)
  datatype Alloc = Alloc(s: State, ok: bool, frame: nat)

  /** Frames kalloc has handed out that have no use yet. */
  ghost function Outs(s: State): set<nat> { set f | f in s.role && s.role[f] == Out }

  /** The lowest clear bit of the slot bitmap, or NSLOTS. */
  function FirstFree(used: set<nat>, i: nat): (r: nat)
    requires i <= NSLOTS
    ensures i <= r <= NSLOTS
    ensures r < NSLOTS ==> r !in used
    ensures forall j :: i <= j < r ==> j in used
    decreases NSLOTS - i
  {
    if i == NSLOTS || i !in used then i else FirstFree(used, i + 1)
  }

  /** Both ways kalloc can be out of options. */
  predicate CannotEvict(s: State) { s.ring == [] || FirstFree(s.used, 0) == NSLOTS }

  /** Frames in nobody's charge but the caller's keep their contents. */
  ghost predicate KeepsOuts(s: State, t: State) {
    forall f {:trigger Load(t.mem, f)} :: Held(s, f) ==> Load(t.mem, f) == Load(s.mem, f)
  }

  function Evict(s: State, slot: nat): (t: State)
    requires Inv(s) && s.ring != [] && slot < NSLOTS && slot !in s.used
    ensures Inv(t) && Memory(t) == Memory(s) && Outs(t) == Outs(s)
    ensures t.free == [s.ring[0]] + s.free && t.tables == s.tables && KeepsOuts(s, t)
  {
    SwapOutEntryOk(s, slot);
    var f := s.ring[0];
    var m := SwapOutEntry(s, slot);
    PushFreeInv(m, f);
    MemoryKeeps(m, PushFree(m, f));
    assert f in s.ring;
    PushFree(m, f)
  }

  /** lru_add of a victim for which there was no slot. */
  function PutBack(s: State): (t: State)
    requires Inv(s) && s.ring != []
    ensures Inv(t) && Memory(t) == Memory(s)
    ensures t == s.(ring := s.ring[1..] + [s.ring[0]])
  {
    ListsRotate(s.ring, s.role, Listed);
    s.(ring := s.ring[1..] + [s.ring[0]])
  }

  function SwapOut(s: State): (r: Done)
    requires Inv(s)
    ensures Inv(r.s) && Memory(r.s) == Memory(s) && Outs(r.s) == Outs(s) && r.s.tables == s.tables
    ensures r.ok <==> !CannotEvict(s)
    ensures r.ok ==> |r.s.free| == |s.free| + 1
    ensures KeepsOuts(s, r.s)
    ensures !r.ok ==> r.s.free == s.free && r.s.used == s.used && |r.s.ring| == |s.ring|
  {
    if s.ring == [] then Done(s, false) else
    var t := Scan(s);
    var slot := FirstFree(t.used, 0);
    if slot == NSLOTS then Done(PutBack(t), false) else Done(Evict(t, slot), true)
  }

  function Pop(s: State): (t: State)
    requires Inv(s) && s.free != []
    ensures Inv(t) && Memory(t) == Memory(s) && t.tables == s.tables
    ensures Held(t, s.free[0]) && s.free[0] !in Outs(s) && Outs(t) == Outs(s) + {s.free[0]}
    ensures t.free == s.free[1..] && Load(t.mem, s.free[0]) == Filled(5) && KeepsOuts(s, t)
  {
    PopFreeInv(s);
    assert s.free[0] in s.free;
    MemoryKeeps(s, PopFree(s));
    PopFree(s)
  }

  /** kalloc: it fails exactly when the free list is empty and nothing can be evicted. */
  function Kalloc(s: State): (r: Alloc)
    requires Inv(s)
    ensures Inv(r.s) && Memory(r.s) == Memory(s) && r.s.tables == s.tables
    ensures r.ok <==> s.free != [] || !CannotEvict(s)
    ensures r.ok ==> Held(r.s, r.frame) && r.frame !in Outs(s) && Outs(r.s) == Outs(s) + {r.frame}
    ensures !r.ok ==> Outs(r.s) == Outs(s)
    ensures KeepsOuts(s, r.s)
  {
    if s.free != [] then Alloc(Pop(s), true, s.free[0]) else
    var d := SwapOut(s);
    if d.ok then Alloc(Pop(d.s), true, d.s.free[0]) else Alloc(d.s, false, 0)
  }

  function Kfree(s: State, f: nat): (t: State)
    requires Inv(s) && Held(s, f)
    ensures Inv(t) && Memory(t) == Memory(s) && t.tables == s.tables
    ensures Outs(t) == Outs(s) - {f} && f in Outs(s)
  {
    PushFreeInv(s, f);
    MemoryKeeps(s, PushFree(s, f));
    PushFree(s, f)
  }

  lemma {:induction false} ScanKeepsSwapped(s: State, k: Key)
    requires Inv(s) && s.ring != [] && k in s.ptes && s.ptes[k].swapped
    ensures k in Scan(s).ptes && Scan(s).ptes[k] == s.ptes[k]
    decreases HotSet(s)
  {
    RotateOk(s);
    assert s.ring[0] in s.ring;
    if Hot(s, s.ring[0]) {
      RotateCools(s);
      ScanKeepsSwapped(Rotate(s), k);
    }
  }

  /** An eviction inside kalloc leaves swapped entries alone. */
  lemma KallocKeepsSwapped(s: State, k: Key)
    requires Inv(s) && k in s.ptes && s.ptes[k].swapped
    ensures k in Kalloc(s).s.ptes && Kalloc(s).s.ptes[k] == s.ptes[k]
  {
    if s.free == [] && s.ring != [] {
      ScanKeepsSwapped(s, k);
      var t := Scan(s);
      assert t.ring[0] in t.ring;
    }
  }

  function PageIn(s: State, k: Key, f: nat): (t: State)
    requires Inv(s) && Held(s, f) && k in s.ptes && s.ptes[k].swapped
    ensures Inv(t) && Memory(t) == Memory(s) && t.tables == s.tables
    ensures Outs(t) == Outs(s) - {f} && k in t.ptes && t.ptes[k].v
  {
    SwapInEntryOk(s, k, f);
    SwapInEntry(s, k, f)
  }

  /** swapin: refused unless the page is swapped, and nothing changes hands on failure. */
  function SwapIn(s: State, k: Key): (r: Done)
    requires Inv(s)
    ensures Inv(r.s) && Memory(r.s) == Memory(s) && Outs(r.s) == Outs(s) && r.s.tables == s.tables
    ensures r.ok <==> k in s.ptes && s.ptes[k].swapped && !s.ptes[k].v && (s.free != [] || !CannotEvict(s))
    ensures r.ok ==> k in r.s.ptes && r.s.ptes[k].v
  {
    if k !in s.ptes || !s.ptes[k].swapped || s.ptes[k].v then Done(s, false) else
    var a := Kalloc(s);
    KallocKeepsSwapped(s, k);
    if a.ok then Done(PageIn(a.s, k, a.frame), true) else Done(a.s, false)
  }

  /** No frame appears or disappears. */
  lemma KallocKeepsFrames(s: State)
    requires Inv(s)
    ensures Kalloc(s).s.mem.Keys == s.mem.Keys
  {
    hide Inv, Memory, Outs, KeepsOuts, FirstFree, Scan, Pop, Evict, PutBack;
    if s.free != [] {
      PopFrames(s);
    } else if !CannotEvict(s) {
      var t := Scan(s);
      var slot := FirstFree(t.used, 0);
      EvictFrames(t, slot);
      PopFrames(Evict(t, slot));
    }
  }

  lemma PopFrames(s: State)
    requires Inv(s) && s.free != []
    ensures Pop(s).mem.Keys == s.mem.Keys
  {
    hide BackOk, TablesOk, TreeOk, PtesOk, Unshared, SlotsOk, SwapArea, WalksOk;
    assert s.free[0] in s.free;
  }

  lemma EvictFrames(s: State, slot: nat)
    requires Inv(s) && s.ring != [] && slot < NSLOTS && slot !in s.used
    ensures Evict(s, slot).mem.Keys == s.mem.Keys
  {
    hide BackOk, TablesOk, TreeOk, PtesOk, Unshared, SlotsOk, SwapArea, WalksOk;
    SwapOutEntryOk(s, slot);
    assert s.ring[0] in s.ring;
  }

  /** The mapped pages are the keys of what users see. */
  lemma MemoryKeys(s: State)
    ensures Memory(s).Keys == s.ptes.Keys
  {}

  function NewTable(s: State, t: TKey, f: nat): (n: State)
    requires Inv(s) && Held(s, f) && Hangs(s, t, f)
    ensures Inv(n) && Memory(n) == Memory(s) && n.tables == s.tables[t := f]
    ensures Outs(n) == Outs(s) - {f}
    ensures forall g {:trigger Load(n.mem, g)} :: g != f ==> Load(n.mem, g) == Load(s.mem, g)
  {
    AddTableInv(s, t, f);
    MemoryKeeps(s, AddTable(s, t, f));
    AddTable(s, t, f)
  }

  /** A step that users cannot observe, that gives away and takes no frame for itself,
      and that only adds table pages. */
  ghost predicate Quiet(s: State, t: State) {
    && Inv(t) && Memory(t) == Memory(s)
    && Outs(t) == Outs(s) && KeepsOuts(s, t)
    && s.tables.Keys <= t.tables.Keys
  }

  lemma QuietTwice(s: State, t: State, u: State)
    requires Quiet(s, t) && Quiet(t, u)
    ensures Quiet(s, u)
  {
    hide Inv, Memory;
    forall f | Held(s, f) ensures f in Outs(s) && f in Outs(t) && Held(t, f) {
      assert f in Outs(s);
      assert f in Outs(t);
    }
  }

  /** Such a step leaves a held frame and an unmapped page as they were. */
  lemma HeldStays(s: State, t: State, k: Key, f: nat)
    requires Quiet(s, t) && Held(s, f) && k !in s.ptes
    ensures Held(t, f) && k !in t.ptes && Load(t.mem, f) == Load(s.mem, f)
  {
    hide Inv, Memory;
    MemoryKeys(s);
    MemoryKeys(t);
    assert f in Outs(t);
  }

  /** One level of walk with alloc set: make the table page unless it is there. */
  function Ensure(s: State, t: TKey): (r: Done)
    requires Inv(s) && (t in s.tables || Hangs(s, t, 0)) && t.level < 2
    ensures Quiet(s, r.s)
    ensures r.ok ==> t in r.s.tables
    ensures !r.ok ==> t !in s.tables
  {
    if t in s.tables then Done(s, true) else
    var a := Kalloc(s);
    if !a.ok then Done(a.s, false) else Done(NewTable(a.s, t, a.frame), true)
  }

  lemma LowUnderMid(s: State, k: Key)
    requires Inv(s) && Root(k.root) in s.tables && Mid(k) in s.tables
    ensures Low(k) in s.tables || Hangs(s, Low(k), 0)
  {
    assert k.vpn / 0x200 / 0x200 == k.vpn / 0x4_0000;
  }

  lemma WalkQuiet(s: State, k: Key)
    requires Inv(s) && Root(k.root) in s.tables
    ensures Mid(k) in s.tables || Hangs(s, Mid(k), 0)
    ensures var m := Ensure(s, Mid(k));
      m.ok ==> (Low(k) in m.s.tables || Hangs(m.s, Low(k), 0)) && Quiet(s, Ensure(m.s, Low(k)).s)
  {
    var m := Ensure(s, Mid(k));
    if m.ok {
      LowUnderMid(m.s, k);
      QuietTwice(s, m.s, Ensure(m.s, Low(k)).s);
    }
  }

  /** walk(pagetable, va, 1): both interior levels, stopping at the first that fails. */
  function Walk(s: State, k: Key): (r: Done)
    requires Inv(s) && Root(k.root) in s.tables
    ensures Quiet(s, r.s)
    ensures r.ok ==> Walks(r.s.tables, k)
    ensures !r.ok ==> !Walks(s.tables, k)
  {
    WalkQuiet(s, k);
    var m := Ensure(s, Mid(k));
    if m.ok then Ensure(m.s, Low(k)) else m
  }
}
