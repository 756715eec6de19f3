/** Every run of the paging operations: ownership is exact, and what programs see is
    what they would see in a machine that never swaps. */
module PagedRuns {
  import opened RiscV
  import opened SwapModel
  import opened SwapOps
  import opened UserMemory
  import opened Fork
  import opened Teardown
  import opened FrameConservation

  /** The entry at `k` is present and maps frame `f`. */
  ghost predicate Carries(s: State, k: Key, f: nat) { k in s.ptes && s.ptes[k].v && s.ptes[k].ppn == f }

  /** The entry at `k` says its page is in slot `i`. */
  ghost predicate InSlot(s: State, k: Key, i: nat) { k in s.ptes && s.ptes[k].swapped && s.ptes[k].ppn == i }

  /** Frame `f` is exactly one of free, listed, a table and held; listed, it has a back-pointer to
      the one entry that maps it. */
  ghost predicate OneUse(s: State, f: nat) {
    && (f in s.free ==> f !in s.ring && f !in s.tables.Values && f !in Outs(s))
    && (f in s.ring ==> f !in s.tables.Values && f !in Outs(s))
    && (f in s.tables.Values ==> f !in Outs(s))
    && (f in s.free || f in s.ring || f in s.tables.Values || f in Outs(s))
    && (f in s.ring <==> exists k :: Carries(s, k, f))
    && (f in s.ring ==> f in s.back && forall k :: Carries(s, k, f) <==> k == s.back[f])
  }

  /** Slot `i` is in use exactly when one entry carries it. */
  ghost predicate OneEntry(s: State, i: nat) {
    && (i in s.used <==> exists k :: InSlot(s, k, i))
    && (forall j, k :: InSlot(s, j, i) && InSlot(s, k, i) ==> j == k)
    && (i in s.used ==> i < NSLOTS)
  }

  lemma FrameOwnership(s: State, f: nat)
    requires Inv(s) && f in s.mem
    ensures OneUse(s, f)
  {
    if f in s.role && s.role[f] == Table {
      assert TableFrame(s.tables, s.tableAt, f);
      assert f in s.tables.Values;
    }
    if f in s.tables.Values {
      var t :| t in s.tables && s.tables[t] == f;
    }
    if f in s.ring { assert Carries(s, s.back[f], f); }
  }

  lemma SlotOwnership(s: State, i: nat)
    requires Inv(s)
    ensures OneEntry(s, i)
  {
    if i in s.used {
      assert SlotHeld(s.owner, s.ptes, i);
      assert InSlot(s, s.owner[i], i);
    }
  }

  /** The trampoline, at the last page below MAXVA. The trapframe is the page before it, in the same
      table; neither is user memory, so all that mapping them adds is table pages. */
  function Top(root: nat): Key { Key(root, MAXVA / PGSIZE - 1) }

  datatype Op =
    | Touch(k: Key)                                        // the MMU sets an access bit
    | Write(k: Key, off: nat, bytes: seq<bv8>)             // a user store, faulting the page in
    | Reclaim                                              // swapout
    | Grow(root: nat, a: nat, b: nat, w: bool, x: bool)    // uvmalloc
    | Shrink(root: nat, a: nat, b: nat)                    // uvmdealloc
    | Duplicate(parent: nat, child: nat, n: nat)           // uvmcopy
    | Create                                               // uvmcreate
    | MapTop(root: nat)                                    // proc_pagetable after uvmcreate
    | Destroy(root: nat, n: nat)                           // uvmfree
    | Take                                                 // any other kalloc
    | Give(f: nat)                                         // any other kfree

  /** What the kernel demands before each call. */
  ghost predicate Legal(s: State, op: Op) {
    match op
    case Write(k, off, bytes) => off + |bytes| <= PGSIZE
    case Grow(root, a, b, w, x) => Root(root) in s.tables && Range(root, a, b) !! Memory(s).Keys
    case Shrink(root, a, b) => Range(root, a, b) <= Memory(s).Keys
    case Duplicate(parent, child, n) => CanCopy(s, parent, child, 0, n)
    case MapTop(root) => Root(root) in s.tables
    case Destroy(root, n) => CanFree(s, root, n)
    case Give(f) => Held(s, f)
    case _ => true
  }

  function TouchPage(s: State, k: Key): (r: Done)
    requires Inv(s)
    ensures Inv(r.s) && Memory(r.s) == Memory(s) && Outs(r.s) == Outs(s) && r.s.ring == s.ring
    ensures r.ok <==> k in s.ptes && s.ptes[k].v
    ensures r.ok ==> Hot(r.s, s.ptes[k].ppn)
  {
    if k in s.ptes && s.ptes[k].v then
      AccessBit(s, k, true);
      assert s.ptes[k].ppn in s.ring;
      Done(s.(ptes := s.ptes[k := s.ptes[k].(a := true)]), true)
    else Done(s, false)
  }

  /** A page after `bytes` are stored at offset `off`. */
  function Patch(p: Page, off: nat, bytes: seq<bv8>): Page
    requires off + |bytes| <= PGSIZE
  {
    p[..off] + bytes + p[off + |bytes|..]
  }

  /** The page at `k` is in memory, or kalloc has a frame to bring it into. */
  predicate CanReach(s: State, k: Key) { (k in s.ptes && s.ptes[k].v) || s.free != [] || !CannotEvict(s) }

  /** A store by a program: straight to a present page, after swapin to a swapped one; refused when
      there is no page or it may not be written. */
  function WritePage(s: State, k: Key, off: nat, bytes: seq<bv8>): (r: Done)
    requires Inv(s) && off + |bytes| <= PGSIZE
    ensures Inv(r.s) && Outs(r.s) == Outs(s)
    ensures r.ok <==> k in Memory(s) && Memory(s)[k].w && Memory(s)[k].u && CanReach(s, k)
    ensures r.ok ==> k in Memory(s) &&
                     Memory(r.s) == Memory(s)[k := Memory(s)[k].(data := Patch(Memory(s)[k].data, off, bytes))]
    ensures !r.ok ==> Memory(r.s) == Memory(s)
  {
    hide Inv, Memory, Outs, SwapIn, CannotEvict;
    MemoryKeys(s);
    assert k in s.ptes ==> s.ptes[k].v != s.ptes[k].swapped by { if k in s.ptes { EntryHome(s, k); } }
    assert k in Memory(s) ==> Memory(s)[k] == View(s, k) by { if k in Memory(s) { MemoryAt(s, k); } }
    var t := if k in s.ptes && s.ptes[k].v then Done(s, true) else SwapIn(s, k);
    if t.ok then
      MemoryKeys(t.s);
      MemoryAt(t.s, k);
      if t.s.ptes[k].w && t.s.ptes[k].u then StorePage(t.s, k, off, bytes) else Done(t.s, false)
    else t
  }

  function StorePage(s: State, k: Key, off: nat, bytes: seq<bv8>): (r: Done)
    requires Inv(s) && k in s.ptes && s.ptes[k].v && off + |bytes| <= PGSIZE
    ensures Inv(r.s) && Outs(r.s) == Outs(s) && r.ok && k in Memory(s)
    ensures Memory(r.s) == Memory(s)[k := Memory(s)[k].(data := Patch(Memory(s)[k].data, off, bytes))]
  {
    var data := Patch(Load(s.mem, s.ptes[k].ppn), off, bytes);
    StoreInv(s, k, data);
    StoreMemory(s, k, data);
    Done(Store(s, k, data), true)
  }

  datatype Ran = Ran(s: State, ok: bool, spoiled: set<nat>)

  function Clean(d: Done): Ran { Ran(d.s, d.ok, {}) }

  ghost function Step(s: State, op: Op): (r: Ran)
    requires Inv(s) && Legal(s, op)
    ensures Inv(r.s)
    ensures !op.Take? && !op.Give? ==> Outs(r.s) == Outs(s)
  {
    match op
    case Touch(k) => Clean(TouchPage(s, k))
    case Write(k, off, bytes) => Clean(WritePage(s, k, off, bytes))
    case Reclaim => Clean(SwapOut(s))
    case Grow(root, a, b, w, x) => Clean(UvmAlloc(s, root, a, a, b, w, x))
    case Shrink(root, a, b) => Ran(UvmUnmap(s, root, a, b), true, {})
    case Duplicate(parent, child, n) =>
      var c := UvmCopy(s, parent, child, 0, n);
      Ran(c.s, c.ok, c.spoiled)
    case Create => Clean(CreateIn(s, Kalloc(s)))
    case MapTop(root) => Clean(Walk(s, Top(root)))
    case Destroy(root, n) => Ran(UvmFree(s, root, n), true, {})
    case Take => var a := Kalloc(s); Ran(a.s, a.ok, {})
    case Give(f) => Ran(Kfree(s, f), true, {})
  }

  /** The same operation on flat memory, given which calls succeeded. */
  function Flat(m: map<Key, UserPage>, op: Op, ok: bool, spoiled: set<nat>): map<Key, UserPage> {
    match op
    case Write(k, off, bytes) =>
      if ok && k in m && off + |bytes| <= PGSIZE then m[k := m[k].(data := Patch(m[k].data, off, bytes))] else m
    case Grow(root, a, b, w, x) => if ok then m + Zeros(root, a, b, w, x) else m
    case Shrink(root, a, b) => m - Range(root, a, b)
    case Destroy(root, n) => m - Range(root, 0, n)
    case Duplicate(parent, child, n) =>
      if ok && Range(parent, 0, n) <= m.Keys then m + Copies(m, parent, child, 0, n, spoiled) else m
    case _ => m
  }

  lemma StepRefines(s: State, op: Op)
    requires Inv(s) && Legal(s, op)
    ensures var r := Step(s, op); Memory(r.s) == Flat(Memory(s), op, r.ok, r.spoiled)
  {
    hide Inv, Memory, SwapOut, Kalloc, Kfree, UvmAlloc, UvmUnmap, UvmCopy, UvmFree, Walk, Range, Zeros, Copies,
         CreateIn, WritePage, TouchPage;
    assert Memory(s) - {} == Memory(s);
    if op.Grow? { NoRange(op.root, op.a); }
    if op.Duplicate? { NoRange(op.child, 0); }
  }

  lemma NoRange(root: nat, a: nat)
    ensures Range(root, a, a) == {}
  {
  }

  ghost predicate LegalRun(s: State, ops: seq<Op>)
    requires Inv(s)
    decreases |ops|
  {
    ops == [] || (Legal(s, ops[0]) && LegalRun(Step(s, ops[0]).s, ops[1..]))
  }

  ghost function Run(s: State, ops: seq<Op>): (t: State)
    requires Inv(s) && LegalRun(s, ops)
    ensures Inv(t)
    decreases |ops|
  {
    if ops == [] then s else Run(Step(s, ops[0]).s, ops[1..])
  }

  datatype Outcome = Outcome(ok: bool, spoiled: set<nat>)

  /** Which calls succeeded, and which copies kalloc spoiled. */
  ghost function Outcomes(s: State, ops: seq<Op>): (o: seq<Outcome>)
    requires Inv(s) && LegalRun(s, ops)
    ensures |o| == |ops|
    decreases |ops|
  {
    if ops == [] then [] else
    var r := Step(s, ops[0]);
    [Outcome(r.ok, r.spoiled)] + Outcomes(r.s, ops[1..])
  }

  function FlatRun(m: map<Key, UserPage>, ops: seq<Op>, o: seq<Outcome>): map<Key, UserPage>
    requires |o| == |ops|
    decreases |ops|
  {
    if ops == [] then m else FlatRun(Flat(m, ops[0], o[0].ok, o[0].spoiled), ops[1..], o[1..])
  }

  /** Swapping is invisible: after any run, the contents and permissions of every user page
      are those of a machine whose memory is one flat map. */
  lemma {:induction false} RunRefines(s: State, ops: seq<Op>)
    requires Inv(s) && LegalRun(s, ops)
    ensures Memory(Run(s, ops)) == FlatRun(Memory(s), ops, Outcomes(s, ops))
    decreases |ops|
  {
    if ops != [] {
      StepRefines(s, ops[0]);
      var r := Step(s, ops[0]);
      RunRefines(r.s, ops[1..]);
      assert Outcomes(s, ops)[1..] == Outcomes(r.s, ops[1..]);
    }
  }

  lemma StepFrames(s: State, op: Op)
    requires Inv(s) && Legal(s, op)
    ensures Step(s, op).s.mem.Keys == s.mem.Keys
  {
    hide Inv, Memory, UvmAlloc, UvmUnmap, UvmCopy, UvmFree, SwapOut, Walk, Range, CanCopy, CanFree, NewTable;
    match op
    case Touch(k) =>
    case Write(k, off, bytes) => WriteFrames(s, k, off, bytes);
    case Reclaim => SwapOutFrames(s);
    case Grow(root, a, b, w, x) => GrowFrames(s, root, a, b, w, x);
    case Shrink(root, a, b) => UvmUnmapFrames(s, root, a, b);
    case Duplicate(parent, child, n) => UvmCopyFrames(s, parent, child, 0, n);
    case Create => CreateFrames(s);
    case MapTop(root) => WalkFrames(s, Top(root));
    case Destroy(root, n) => UvmFreeFrames(s, root, n);
    case Take => KallocKeepsFrames(s);
    case Give(f) => KfreeFrames(s, f);
  }

  lemma GrowFrames(s: State, root: nat, a: nat, b: nat, w: bool, x: bool)
    requires Inv(s) && Root(root) in s.tables && Range(root, a, b) !! Memory(s).Keys
    ensures Range(root, a, a) <= Memory(s).Keys && UvmAlloc(s, root, a, a, b, w, x).s.mem.Keys == s.mem.Keys
  {
    hide Inv, Memory;
    UvmAllocFrames(s, root, a, a, b, w, x);
  }

  lemma WriteFrames(s: State, k: Key, off: nat, bytes: seq<bv8>)
    requires Inv(s) && off + |bytes| <= PGSIZE
    ensures WritePage(s, k, off, bytes).s.mem.Keys == s.mem.Keys
  {
    SwapInFrames(s, k);
    if k in s.ptes && s.ptes[k].v { assert s.ptes[k].ppn in s.role; }
    var t := SwapIn(s, k);
    if t.ok { assert t.s.ptes[k].ppn in t.s.role; }
  }

  lemma NewTableFrames(s: State, t: TKey, f: nat)
    requires Inv(s) && Held(s, f) && Hangs(s, t, f)
    ensures NewTable(s, t, f).mem.Keys == s.mem.Keys
  {
    hide Lists, BackOk, TablesOk, TreeOk, PtesOk, Unshared, SlotsOk, SwapArea, WalksOk;
  }

  lemma CreateFrames(s: State)
    requires Inv(s)
    ensures CreateIn(s, Kalloc(s)).s.mem.Keys == s.mem.Keys
  {
    hide Inv, Memory, Outs, Kalloc;
    KallocKeepsFrames(s);
    var a := Kalloc(s);
    if a.ok {
      RootFresh(a.s, a.frame);
      NewTableFrames(a.s, Root(a.frame), a.frame);
    }
  }

  lemma {:induction false} RunFrames(s: State, ops: seq<Op>)
    requires Inv(s) && LegalRun(s, ops)
    ensures Run(s, ops).mem.Keys == s.mem.Keys
    decreases |ops|
  {
    hide Inv, Step, Legal;
    if ops != [] {
      StepFrames(s, ops[0]);
      RunFrames(Step(s, ops[0]).s, ops[1..]);
    }
  }

  /** Whatever has been done since boot, every frame has one use and every slot in use one entry:
      nothing is freed twice, and no frame or slot leaks. */
  lemma RunOwnership(mem: map<nat, Page>, free: seq<nat>, swap: map<nat, Page>, ops: seq<Op>)
    requires Distinct(free) && SwapArea(swap) && forall f {:trigger f in free} :: f in free <==> f in mem
    requires Inv(Boot(mem, free, swap)) && LegalRun(Boot(mem, free, swap), ops)
    ensures var t := Run(Boot(mem, free, swap), ops);
      t.mem.Keys == mem.Keys && (forall f: nat :: f in t.mem ==> OneUse(t, f)) && forall i: nat :: OneEntry(t, i)
  {
    hide Inv, OneUse, OneEntry, LegalRun;
    var t := Run(Boot(mem, free, swap), ops);
    RunFrames(Boot(mem, free, swap), ops);
    forall f: nat | f in t.mem ensures OneUse(t, f) { FrameOwnership(t, f); }
    forall i: nat ensures OneEntry(t, i) { SlotOwnership(t, i); }
  }

  /** A run from boot at whose end every process is gone and every frame lent out has been
      returned leaves all memory free and the swap area empty. */
  lemma RunLeaksNothing(mem: map<nat, Page>, free: seq<nat>, swap: map<nat, Page>, ops: seq<Op>)
    requires Inv(Boot(mem, free, swap)) && LegalRun(Boot(mem, free, swap), ops)
    requires var t := Run(Boot(mem, free, swap), ops);
      Outs(t) == {} && forall r: nat {:trigger Root(r)} :: Root(r) !in t.tables
    ensures var t := Run(Boot(mem, free, swap), ops);
      && Distinct(t.free) && (forall f {:trigger f in t.free} :: f in t.free <==> f in mem)
      && t.ring == [] && t.used == {} && Memory(t) == map[]
  {
    hide Lists, LegalRun, Run;
    var t := Run(Boot(mem, free, swap), ops);
    RunFrames(Boot(mem, free, swap), ops);
    NothingLeaks(t);
    ListsOnce(t.free, t.role, Free);
  }

  lemma ListsOnce(q: seq<nat>, role: map<nat, Role>, r: Role)
    requires Lists(q, role, r)
    ensures Distinct(q)
  {}
}
