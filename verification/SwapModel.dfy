/** Physical frames, user page tables, the eviction ring and swap slots of
    kernel/vm.c and kernel/kalloc.c, as one value with one function per atomic step. */
module SwapModel {
  import opened RiscV

  const NSLOTS: nat := 7000  // SWAPMAX / (PGSIZE / BSIZE)

  type Page = p: seq<bv8> | |p| == 4096 witness seq(4096, _ => 0)

  function Filled(b: bv8): Page { seq(4096, _ => b) }

  /** A user page: the frame number of the root table and the virtual page number. */
  datatype Key = Key(root: nat, vpn: nat)

  /** A page-table page: level 2 is the root, and `prefix` the address bits above it. */
  datatype TKey = TKey(root: nat, level: nat, prefix: nat)

  /** What an allocatable frame is in use for. */
  datatype Role =
    | Free    // on kmem.freelist
    | Listed  // a user page on the eviction ring
    | Table   // a page-table page
    | Out     // handed out by kalloc and not yet given a use

  datatype State = State(
    mem: map<nat, Page>,        // contents of every allocatable frame
    free: seq<nat>,             // kmem.freelist, first element popped first
    ring: seq<nat>,             // eviction ring from lru_head
    back: map<nat, Key>,        // pages[f].pagetable and pages[f].vaddr
    tables: map<TKey, nat>,     // page-table pages
    ptes: map<Key, Pte>,        // non-zero leaf entries of user memory
    used: set<nat>,             // set bits of swap_bitmap
    swap: map<nat, Page>,       // contents of the swap slots
    role: map<nat, Role>,       // bookkeeping: the use of each frame
    tableAt: map<nat, TKey>,    // bookkeeping: which table a table frame is
    owner: map<nat, Key>        // bookkeeping: the page in each used slot
  )

  ghost predicate Distinct(q: seq<nat>) {
    forall i, j :: 0 <= i < j < |q| ==> q[i] != q[j]
  }

  /** `q` lists, once each, exactly the frames whose role is `r`. */
  ghost predicate Lists(q: seq<nat>, role: map<nat, Role>, r: Role) {
    && Distinct(q)
    && (forall f {:trigger f in q} :: f in q <==> f in role && role[f] == r)
  }

  /** Every listed frame has a back-pointer to an entry that maps it. */
  ghost predicate BackOk(ring: seq<nat>, back: map<nat, Key>, ptes: map<Key, Pte>) {
    forall f {:trigger f in ring} :: f in ring ==>
      f in back && back[f] in ptes && ptes[back[f]].v && ptes[back[f]].ppn == f
  }

  ghost predicate TableFrame(tables: map<TKey, nat>, tableAt: map<nat, TKey>, f: nat) {
    f in tableAt && tableAt[f] in tables && tables[tableAt[f]] == f
  }

  /** Table pages and table frames correspond one to one. */
  ghost predicate TablesOk(tables: map<TKey, nat>, tableAt: map<nat, TKey>, role: map<nat, Role>) {
    && (forall t {:trigger t in tables} :: t in tables ==>
          && tables[t] in role && role[tables[t]] == Table
          && tables[t] in tableAt && tableAt[tables[t]] == t)
    && (forall f {:trigger TableFrame(tables, tableAt, f)} :: f in role && role[f] == Table ==>
          TableFrame(tables, tableAt, f))
  }

  /** An entry is either present, in a listed frame, or swapped, in a used slot. */
  ghost predicate PtesOk(ptes: map<Key, Pte>, role: map<nat, Role>, used: set<nat>) {
    forall k {:trigger k in ptes} :: k in ptes ==>
      && ptes[k].v != ptes[k].swapped
      && (ptes[k].v ==> ptes[k].ppn in role && role[ptes[k].ppn] == Listed)
      && (ptes[k].swapped ==> ptes[k].ppn in used)
  }

  /** No frame and no slot is reachable through two entries. */
  ghost predicate Unshared(ptes: map<Key, Pte>) {
    forall j, k {:trigger j in ptes, k in ptes} ::
      j in ptes && k in ptes && ptes[j].v == ptes[k].v && ptes[j].ppn == ptes[k].ppn ==> j == k
  }

  ghost predicate SlotHeld(owner: map<nat, Key>, ptes: map<Key, Pte>, i: nat) {
    i < NSLOTS && i in owner && owner[i] in ptes && ptes[owner[i]].swapped && ptes[owner[i]].ppn == i
  }

  /** Every used slot is a slot of the swap area and holds the page of some entry. */
  ghost predicate SlotsOk(used: set<nat>, owner: map<nat, Key>, ptes: map<Key, Pte>) {
    && used == owner.Keys
    && (forall i {:trigger SlotHeld(owner, ptes, i)} :: i in used ==> SlotHeld(owner, ptes, i))
  }

  ghost predicate SwapArea(swap: map<nat, Page>) {
    forall i {:trigger i in swap} :: 0 <= i < NSLOTS ==> i in swap
  }

  /** The table pages a walk to `k` goes through. */
  function Mid(k: Key): TKey { TKey(k.root, 1, k.vpn / 0x4_0000) }
  function Low(k: Key): TKey { TKey(k.root, 0, k.vpn / 0x200) }

  predicate Walks(tables: map<TKey, nat>, k: Key) { Mid(k) in tables && Low(k) in tables }

  ghost predicate WalksOk(ptes: map<Key, Pte>, tables: map<TKey, nat>) {
    forall k {:trigger Walks(tables, k)} :: k in ptes ==> Walks(tables, k)
  }

  function Root(r: nat): TKey { TKey(r, 2, 0) }

  ghost predicate Hung(tables: map<TKey, nat>, t: TKey) {
    && t.level <= 2
    && (t.level == 2 ==> t in tables && t == Root(tables[t]))
    && (t.level < 2 ==> Root(t.root) in tables)
    && (t.level == 0 ==> TKey(t.root, 1, t.prefix / 0x200) in tables)
  }

  /** Roots are named by their frame, and every other table hangs off its parent. */
  ghost predicate TreeOk(tables: map<TKey, nat>) {
    forall t {:trigger Hung(tables, t)} :: t in tables ==> Hung(tables, t)
  }

  ghost predicate Inv(s: State) {
    && s.mem.Keys == s.role.Keys
    && Lists(s.free, s.role, Free)
    && Lists(s.ring, s.role, Listed)
    && BackOk(s.ring, s.back, s.ptes)
    && TablesOk(s.tables, s.tableAt, s.role)
    && TreeOk(s.tables)
    && PtesOk(s.ptes, s.role, s.used)
    && Unshared(s.ptes)
    && SlotsOk(s.used, s.owner, s.ptes)
    && SwapArea(s.swap)
    && WalksOk(s.ptes, s.tables)
  }

  // ---- what user programs can observe ----

  datatype UserPage = UserPage(data: Page, r: bool, w: bool, x: bool, u: bool)

  function Load(m: map<nat, Page>, i: nat): Page { if i in m then m[i] else Filled(0) }

  /** The contents and permissions of one mapped page, wherever it lives. */
  function View(s: State, k: Key): UserPage
    requires k in s.ptes
  {
    var p := s.ptes[k];
    UserPage(if p.v then Load(s.mem, p.ppn) else Load(s.swap, p.ppn), p.r, p.w, p.x, p.u)
  }

  function Memory(s: State): map<Key, UserPage> {
    map k | k in s.ptes :: View(s, k)
  }

  // ---- the list clauses under one change of role ----

  lemma ListsSkip(q: seq<nat>, role: map<nat, Role>, r: Role, f: nat, n: Role)
    requires Lists(q, role, r) && f in role && role[f] != r && n != r
    ensures Lists(q, role[f := n], r)
  {}

  /** A duplicate-free list is its head and, apart from it, its tail. */
  lemma HeadTail(q: seq<nat>)
    requires q != [] && Distinct(q)
    ensures Distinct(q[1..])
    ensures forall f {:trigger f in q[1..]} {:trigger f in q} :: f in q[1..] <==> f in q && f != q[0]
  {
    var t := q[1..];
    assert q == [q[0]] + t;
    assert forall i :: 0 <= i < |t| ==> t[i] == q[i + 1];
  }

  lemma AddOne(q: seq<nat>, x: nat)
    requires Distinct(q) && x !in q
    ensures Distinct([x] + q) && Distinct(q + [x])
  {}

  lemma ListsPop(q: seq<nat>, role: map<nat, Role>, r: Role, n: Role)
    requires Lists(q, role, r) && q != [] && n != r
    ensures q[0] in q && Lists(q[1..], role[q[0] := n], r)
  {
    HeadTail(q);
  }

  lemma ListsPush(q: seq<nat>, role: map<nat, Role>, r: Role, f: nat)
    requires Lists(q, role, r) && f in role && role[f] != r
    ensures Lists([f] + q, role[f := r], r) && Lists(q + [f], role[f := r], r)
  {
    assert f !in q;
  }

  /** `q` without its first occurrence of `f`, as lru_remove leaves it. */
  function Without(q: seq<nat>, f: nat): seq<nat> {
    if q == [] then [] else if q[0] == f then q[1..] else [q[0]] + Without(q[1..], f)
  }

  lemma {:induction false} WithoutHas(q: seq<nat>, f: nat)
    requires Distinct(q)
    ensures Distinct(Without(q, f))
    ensures forall g {:trigger g in Without(q, f)} :: g in Without(q, f) <==> g in q && g != f
  {
    if q != [] {
      HeadTail(q);
      WithoutHas(q[1..], f);
      if q[0] != f { AddOne(Without(q[1..], f), q[0]); }
    }
  }

  lemma ListsWithout(q: seq<nat>, role: map<nat, Role>, r: Role, f: nat, n: Role)
    requires Lists(q, role, r) && f in q && n != r
    ensures Lists(Without(q, f), role[f := n], r)
  {
    WithoutHas(q, f);
  }

  /** Moving the head of a list to its tail keeps its elements. */
  lemma ListsRotate(q: seq<nat>, role: map<nat, Role>, r: Role)
    requires q != [] && Lists(q, role, r)
    ensures Lists(q[1..] + [q[0]], role, r)
    ensures forall f {:trigger f in q[1..] + [q[0]]} :: f in q[1..] + [q[0]] <==> f in q
  {
    HeadTail(q);
    AddOne(q[1..], q[0]);
    var t := q[1..] + [q[0]];
    forall f ensures f in t <==> f in q {
      assert f in t <==> f in q[1..] || f == q[0];
      assert f in q[1..] <==> f in q && f != q[0];
    }
  }

  // ---- the clauses about entries under one change of entry ----

  lemma PtesUpdate(ptes: map<Key, Pte>, role: map<nat, Role>, used: set<nat>, k: Key, p: Pte)
    requires PtesOk(ptes, role, used) && p.v != p.swapped
    requires p.v ==> p.ppn in role && role[p.ppn] == Listed
    requires p.swapped ==> p.ppn in used
    ensures PtesOk(ptes[k := p], role, used)
  {}

  lemma UnsharedUpdate(ptes: map<Key, Pte>, k: Key, p: Pte)
    requires Unshared(ptes)
    requires forall j {:trigger j in ptes} :: j in ptes && ptes[j].v == p.v && ptes[j].ppn == p.ppn ==> j == k
    ensures Unshared(ptes[k := p])
  {}

  lemma BackUpdate(ring: seq<nat>, back: map<nat, Key>, ptes: map<Key, Pte>, k: Key, p: Pte)
    requires BackOk(ring, back, ptes)
    requires forall f {:trigger f in ring} :: f in ring && f in back && back[f] == k ==> p.v && p.ppn == f
    ensures BackOk(ring, back, ptes[k := p])
  {}

  lemma SlotsUpdate(used: set<nat>, owner: map<nat, Key>, ptes: map<Key, Pte>, k: Key, p: Pte)
    requires SlotsOk(used, owner, ptes)
    requires k in ptes && ptes[k].swapped ==> p.swapped && p.ppn == ptes[k].ppn
    ensures SlotsOk(used, owner, ptes[k := p])
  {
    forall i | i in used ensures SlotHeld(owner, ptes[k := p], i) {
      assert SlotHeld(owner, ptes, i);
    }
  }

  /** A change of access bit disturbs no clause. */
  lemma AccessBit(s: State, k: Key, b: bool)
    requires Inv(s) && k in s.ptes
    ensures Inv(s.(ptes := s.ptes[k := s.ptes[k].(a := b)]))
    ensures Memory(s.(ptes := s.ptes[k := s.ptes[k].(a := b)])) == Memory(s)
  {
    var p := s.ptes[k].(a := b);
    PtesUpdate(s.ptes, s.role, s.used, k, p);
    UnsharedUpdate(s.ptes, k, p);
    BackUpdate(s.ring, s.back, s.ptes, k, p);
    SlotsUpdate(s.used, s.owner, s.ptes, k, p);
  }

  // ---- clock scan ----

  predicate Hot(s: State, f: nat) {
    f in s.back && s.back[f] in s.ptes && s.ptes[s.back[f]].a
  }

  function HotSet(s: State): set<nat> { set f | f in s.ring && Hot(s, f) }

  /** One second chance: clear the access bit of the head and move it to the tail. */
  function Rotate(s: State): State
    requires s.ring != [] && s.ring[0] in s.back && s.back[s.ring[0]] in s.ptes
  {
    var k := s.back[s.ring[0]];
    s.(ptes := s.ptes[k := s.ptes[k].(a := false)], ring := s.ring[1..] + [s.ring[0]])
  }

  lemma RotateOk(s: State)
    requires Inv(s) && s.ring != []
    ensures s.ring[0] in s.back && s.back[s.ring[0]] in s.ptes
    ensures Inv(Rotate(s)) && Memory(Rotate(s)) == Memory(s)
  {
    assert s.ring[0] in s.ring;
    AccessBit(s, s.back[s.ring[0]], false);
    ListsRotate(s.ring, s.role, Listed);
  }

  lemma RotateCools(s: State)
    requires Inv(s) && s.ring != [] && Hot(s, s.ring[0])
    ensures HotSet(Rotate(s)) == HotSet(s) - {s.ring[0]}
    ensures s.ring[0] in HotSet(s)
  {
    assert s.ring[0] in s.ring;
    ListsRotate(s.ring, s.role, Listed);
    assert forall g :: g in s.ring && g != s.ring[0] ==> s.back[g] != s.back[s.ring[0]];
  }

  /** Where the clock hand stops: the head of the result is the victim. */
  function Scan(s: State): (t: State)
    requires Inv(s) && s.ring != []
    ensures Inv(t) && t.ring != [] && !Hot(t, t.ring[0])
    ensures Memory(t) == Memory(s)
    ensures t == s.(ring := t.ring, ptes := t.ptes) && |t.ring| == |s.ring|
    decreases HotSet(s)
  {
    RotateOk(s);
    if Hot(s, s.ring[0]) then
      RotateCools(s);
      Scan(Rotate(s))
    else s
  }

  // ---- atomic steps ----

  /** kalloc takes the first free frame and fills it with fives. */
  function PopFree(s: State): State
    requires s.free != []
  {
    var f := s.free[0];
    s.(free := s.free[1..], role := s.role[f := Out], mem := s.mem[f := Filled(5)])
  }

  /** kfree fills the frame with ones and pushes it. */
  function PushFree(s: State, f: nat): State {
    s.(free := [f] + s.free, role := s.role[f := Free], mem := s.mem[f := Filled(1)])
  }

  predicate Held(s: State, f: nat) { f in s.role && s.role[f] == Out }

  lemma PopFreeInv(s: State)
    requires Inv(s) && s.free != []
    ensures s.free[0] in s.role && Inv(PopFree(s)) && Held(PopFree(s), s.free[0])
  {
    assert s.free[0] in s.free;
    ListsPop(s.free, s.role, Free, Out);
    ListsSkip(s.ring, s.role, Listed, s.free[0], Out);
  }

  lemma PushFreeInv(s: State, f: nat)
    requires Inv(s) && Held(s, f)
    ensures Inv(PushFree(s, f))
  {
    ListsPush(s.free, s.role, Free, f);
    ListsSkip(s.ring, s.role, Listed, f, Free);
  }

  /** Frames no user entry maps can change contents unseen. */
  lemma MemoryKeeps(s: State, t: State)
    requires Inv(s) && s.ptes == t.ptes && s.swap == t.swap
    requires forall f {:trigger s.role[f]} :: f in s.role && s.role[f] == Listed ==> Load(t.mem, f) == Load(s.mem, f)
    ensures Memory(t) == Memory(s)
  {
    assert forall k :: k in s.ptes ==> View(s, k) == View(t, k);
  }

  /** swapout's change of ownership: the head of the ring goes to `slot`. */
  function SwapOutEntry(s: State, slot: nat): State
    requires s.ring != [] && s.ring[0] in s.back && s.back[s.ring[0]] in s.ptes
  {
    var f := s.ring[0];
    var k := s.back[f];
    s.(ring := s.ring[1..], back := s.back - {f},
       ptes := s.ptes[k := s.ptes[k].(ppn := slot, v := false, a := false, swapped := true)],
       used := s.used + {slot}, owner := s.owner[slot := k],
       swap := s.swap[slot := Load(s.mem, f)],
       role := s.role[f := Out])
  }

  /** swapin's change of ownership: the page in `k`'s slot goes to the held frame `f`. */
  function SwapInEntry(s: State, k: Key, f: nat): State
    requires k in s.ptes
  {
    var slot := s.ptes[k].ppn;
    s.(ring := s.ring + [f], back := s.back[f := k],
       ptes := s.ptes[k := s.ptes[k].(ppn := f, v := true, swapped := false)],
       used := s.used - {slot}, owner := s.owner - {slot},
       mem := s.mem[f := Load(s.swap, slot)],
       role := s.role[f := Listed])
  }

  lemma SwapOutPtes(s: State, slot: nat)
    requires Inv(s) && s.ring != [] && slot < NSLOTS && slot !in s.used
    ensures s.ring[0] in s.ring && s.ring[0] in s.back && s.back[s.ring[0]] in s.ptes
    ensures var t := SwapOutEntry(s, slot); PtesOk(t.ptes, t.role, t.used) && Unshared(t.ptes)
  {
    assert s.ring[0] in s.ring;
  }

  lemma SwapOutSlots(s: State, slot: nat)
    requires Inv(s) && s.ring != [] && slot < NSLOTS && slot !in s.used
    requires s.ring[0] in s.ring && s.ring[0] in s.back && s.back[s.ring[0]] in s.ptes
    ensures var t := SwapOutEntry(s, slot); SlotsOk(t.used, t.owner, t.ptes) && SwapArea(t.swap)
  {
    var t := SwapOutEntry(s, slot);
    forall i | i in t.used ensures SlotHeld(t.owner, t.ptes, i) {
      if i != slot { assert SlotHeld(s.owner, s.ptes, i); }
    }
  }

  lemma SwapOutBack(s: State, slot: nat)
    requires Inv(s) && s.ring != []
    requires s.ring[0] in s.ring && s.ring[0] in s.back && s.back[s.ring[0]] in s.ptes
    ensures var t := SwapOutEntry(s, slot); BackOk(t.ring, t.back, t.ptes)
  {
    HeadTail(s.ring);
  }

  lemma SwapOutMemory(s: State, slot: nat)
    requires Inv(s) && s.ring != [] && slot !in s.used
    requires s.ring[0] in s.ring && s.ring[0] in s.back && s.back[s.ring[0]] in s.ptes
    ensures Memory(SwapOutEntry(s, slot)) == Memory(s)
  {
    var t := SwapOutEntry(s, slot);
    assert forall k :: k in s.ptes ==> View(s, k) == View(t, k);
  }

  lemma SwapOutEntryOk(s: State, slot: nat)
    requires Inv(s) && s.ring != [] && slot < NSLOTS && slot !in s.used
    ensures s.ring[0] in s.back && s.back[s.ring[0]] in s.ptes
    ensures var t := SwapOutEntry(s, slot); Inv(t) && Memory(t) == Memory(s) && Held(t, s.ring[0])
  {
    SwapOutPtes(s, slot);
    SwapOutSlots(s, slot);
    SwapOutBack(s, slot);
    SwapOutMemory(s, slot);
    ListsPop(s.ring, s.role, Listed, Out);
    ListsSkip(s.free, s.role, Free, s.ring[0], Out);
  }

  lemma SwapInPtes(s: State, k: Key, f: nat)
    requires Inv(s) && Held(s, f) && k in s.ptes && s.ptes[k].swapped
    ensures var t := SwapInEntry(s, k, f); PtesOk(t.ptes, t.role, t.used) && Unshared(t.ptes)
  {}

  lemma SwapInSlots(s: State, k: Key, f: nat)
    requires Inv(s) && Held(s, f) && k in s.ptes && s.ptes[k].swapped
    ensures var t := SwapInEntry(s, k, f); SlotsOk(t.used, t.owner, t.ptes)
  {
    var t := SwapInEntry(s, k, f);
    forall i | i in t.used ensures SlotHeld(t.owner, t.ptes, i) {
      assert SlotHeld(s.owner, s.ptes, i);
    }
  }

  lemma SwapInBack(s: State, k: Key, f: nat)
    requires Inv(s) && Held(s, f) && k in s.ptes && s.ptes[k].swapped
    ensures var t := SwapInEntry(s, k, f); BackOk(t.ring, t.back, t.ptes)
  {
    assert f !in s.ring;
  }

  lemma SwapInMemory(s: State, k: Key, f: nat)
    requires Inv(s) && Held(s, f) && k in s.ptes && s.ptes[k].swapped
    ensures Memory(SwapInEntry(s, k, f)) == Memory(s)
  {
    var t := SwapInEntry(s, k, f);
    forall j | j in s.ptes ensures View(s, j) == View(t, j) {}
  }

  lemma SwapInEntryOk(s: State, k: Key, f: nat)
    requires Inv(s) && Held(s, f) && k in s.ptes && s.ptes[k].swapped
    ensures var t := SwapInEntry(s, k, f); Inv(t) && Memory(t) == Memory(s)
  {
    SwapInPtes(s, k, f);
    SwapInSlots(s, k, f);
    SwapInBack(s, k, f);
    SwapInMemory(s, k, f);
    ListsPush(s.ring, s.role, Listed, f);
    ListsSkip(s.free, s.role, Free, f, Listed);
  }

  /** mappages and lru_add: a new entry for the held frame `f`, at the tail of the ring. */
  function MapEntry(s: State, k: Key, p: Pte): State {
    s.(ring := s.ring + [p.ppn], back := s.back[p.ppn := k], ptes := s.ptes[k := p],
       role := s.role[p.ppn := Listed])
  }

  predicate Mappable(s: State, k: Key, p: Pte) {
    && k !in s.ptes && Walks(s.tables, k)
    && p.v && !p.swapped && Held(s, p.ppn)
  }

  /** uvmunmap of a present page, before the frame is freed. */
  function UnmapListed(s: State, k: Key): State
    requires k in s.ptes
  {
    var f := s.ptes[k].ppn;
    s.(ring := Without(s.ring, f), ptes := s.ptes - {k}, role := s.role[f := Out])
  }

  /** uvmunmap of a swapped page: only the slot is given back. */
  function UnmapSwapped(s: State, k: Key): State
    requires k in s.ptes
  {
    var slot := s.ptes[k].ppn;
    s.(ptes := s.ptes - {k}, used := s.used - {slot}, owner := s.owner - {slot})
  }

  /** walk adds the zeroed table page `t` in the held frame `f`. */
  function AddTable(s: State, t: TKey, f: nat): State {
    s.(tables := s.tables[t := f], tableAt := s.tableAt[f := t],
       role := s.role[f := Table], mem := s.mem[f := Filled(0)])
  }

  lemma MapEntryPtes(s: State, k: Key, p: Pte)
    requires Inv(s) && Mappable(s, k, p)
    ensures var t := MapEntry(s, k, p); PtesOk(t.ptes, t.role, t.used) && Unshared(t.ptes)
  {}

  lemma MapEntryInv(s: State, k: Key, p: Pte)
    requires Inv(s) && Mappable(s, k, p)
    ensures Inv(MapEntry(s, k, p))
  {
    var t := MapEntry(s, k, p);
    MapEntryPtes(s, k, p);
    assert p.ppn !in s.ring;
    ListsPush(s.ring, s.role, Listed, p.ppn);
    ListsSkip(s.free, s.role, Free, p.ppn, Listed);
    SlotsUpdate(s.used, s.owner, s.ptes, k, p);
  }

  lemma UnmapListedInv(s: State, k: Key)
    requires Inv(s) && k in s.ptes && s.ptes[k].v
    ensures Inv(UnmapListed(s, k)) && Held(UnmapListed(s, k), s.ptes[k].ppn)
  {
    var t := UnmapListed(s, k);
    var f := s.ptes[k].ppn;
    assert f in s.ring;
    ListsWithout(s.ring, s.role, Listed, f, Out);
    ListsSkip(s.free, s.role, Free, f, Out);
    WithoutHas(s.ring, f);
    forall i | i in t.used ensures SlotHeld(t.owner, t.ptes, i) {
      assert SlotHeld(s.owner, s.ptes, i);
    }
  }

  lemma UnmapSwappedInv(s: State, k: Key)
    requires Inv(s) && k in s.ptes && s.ptes[k].swapped
    ensures Inv(UnmapSwapped(s, k))
  {
    var t := UnmapSwapped(s, k);
    forall i | i in t.used ensures SlotHeld(t.owner, t.ptes, i) {
      assert SlotHeld(s.owner, s.ptes, i);
    }
  }

  /** Where walk and uvmcreate may hang a new table page. */
  predicate Hangs(s: State, t: TKey, f: nat) {
    && t !in s.tables && t.level <= 2
    && (t.level == 2 ==> t == Root(f))
    && (t.level < 2 ==> Root(t.root) in s.tables)
    && (t.level == 0 ==> TKey(t.root, 1, t.prefix / 0x200) in s.tables)
  }

  lemma AddTableFrames(s: State, t: TKey, f: nat)
    requires TablesOk(s.tables, s.tableAt, s.role) && Held(s, f) && t !in s.tables
    ensures TablesOk(s.tables[t := f], s.tableAt[f := t], s.role[f := Table])
  {
    var tables, tableAt, role := s.tables[t := f], s.tableAt[f := t], s.role[f := Table];
    forall g | g in role && role[g] == Table ensures TableFrame(tables, tableAt, g) {
      if g != f { assert TableFrame(s.tables, s.tableAt, g); }
    }
  }

  lemma AddTableTree(s: State, t: TKey, f: nat)
    requires TreeOk(s.tables) && WalksOk(s.ptes, s.tables) && Hangs(s, t, f)
    ensures TreeOk(s.tables[t := f]) && WalksOk(s.ptes, s.tables[t := f])
  {
    var tables := s.tables[t := f];
    forall k | k in s.ptes ensures Walks(tables, k) { assert Walks(s.tables, k); }
    forall u | u in tables ensures Hung(tables, u) {
      if u != t { assert Hung(s.tables, u); }
    }
  }

  lemma AddTablePtes(s: State, f: nat)
    requires PtesOk(s.ptes, s.role, s.used) && Held(s, f)
    ensures PtesOk(s.ptes, s.role[f := Table], s.used)
  {
  }

  lemma AddTableInv(s: State, t: TKey, f: nat)
    requires Inv(s) && Held(s, f) && Hangs(s, t, f)
    ensures Inv(AddTable(s, t, f))
  {
    hide Lists, BackOk, TablesOk, TreeOk, PtesOk, Unshared, SlotsOk, SwapArea, WalksOk;
    ListsSkip(s.ring, s.role, Listed, f, Table);
    ListsSkip(s.free, s.role, Free, f, Table);
    AddTableFrames(s, t, f);
    AddTableTree(s, t, f);
    AddTablePtes(s, f);
  }

  /** A user store to a present page. */
  function Store(s: State, k: Key, data: Page): State
    requires k in s.ptes
  {
    s.(mem := s.mem[s.ptes[k].ppn := data])
  }

  lemma StoreInv(s: State, k: Key, data: Page)
    requires Inv(s) && k in s.ptes && s.ptes[k].v
    ensures Inv(Store(s, k, data))
  {}

  lemma StoreMemory(s: State, k: Key, data: Page)
    requires PtesOk(s.ptes, s.role, s.used) && Unshared(s.ptes) && k in s.ptes && s.ptes[k].v
    ensures Memory(Store(s, k, data)) == Memory(s)[k := Memory(s)[k].(data := data)]
  {
    hide View;
    var t := Store(s, k, data);
    forall j | j in s.ptes ensures View(t, j) == if j == k then View(s, k).(data := data) else View(s, j) {
      StoreView(s, k, data, j);
    }
  }

  lemma StoreView(s: State, k: Key, data: Page, j: Key)
    requires PtesOk(s.ptes, s.role, s.used) && Unshared(s.ptes) && k in s.ptes && s.ptes[k].v && j in s.ptes
    ensures View(Store(s, k, data), j) == if j == k then View(s, k).(data := data) else View(s, j)
  {
  }

  lemma MapEntryMemory(s: State, k: Key, p: Pte)
    requires Inv(s) && Mappable(s, k, p)
    ensures Memory(MapEntry(s, k, p)) == Memory(s)[k := UserPage(Load(s.mem, p.ppn), p.r, p.w, p.x, p.u)]
  {}

  lemma UnmapMemory(s: State, k: Key)
    requires k in s.ptes
    ensures Memory(UnmapListed(s, k)) == Memory(s) - {k}
    ensures Memory(UnmapSwapped(s, k)) == Memory(s) - {k}
  {}

  /** After boot every frame is free and nothing is mapped or swapped. */
  function Boot(mem: map<nat, Page>, free: seq<nat>, swap: map<nat, Page>): State {
    State(mem, free, [], map[], map[], map[], {}, swap, map f | f in mem :: Free, map[], map[])
  }

  lemma BootInv(mem: map<nat, Page>, free: seq<nat>, swap: map<nat, Page>)
    requires Distinct(free) && SwapArea(swap)
    requires forall f {:trigger f in free} :: f in free <==> f in mem
    ensures Inv(Boot(mem, free, swap))
  {}
}
