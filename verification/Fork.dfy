/** uvmcopy (kernel/vm.c): what fork's copy of memory contains. */
module Fork {
  import opened RiscV
  import opened SwapModel
  import opened SwapOps
  import opened UserMemory
  import opened Clock

  datatype Copied = Copied(s: State, ok: bool, spoiled: set<nat>)

  /** What uvmcopy puts in the child's frame, read after its kalloc through the entry
      `src` it looked up before. */
  function CopyData(s: State, src: Pte): Page {
    if src.v then Load(s.mem, src.ppn) else Load(s.swap, src.ppn)
  }

  /** kalloc will evict the very page being copied. */
  predicate Spoils(s: State, from: Key) {
    from in s.ptes && s.ptes[from].v && s.free == [] && !CannotEvict(s) && Victim(s) == s.ptes[from].ppn
  }

  /** An eviction changes frames only at the victim and slots only at the new one. */
  lemma EvictData(s: State, slot: nat, p: Pte)
    requires Inv(s) && s.ring != [] && slot < NSLOTS && slot !in s.used
    requires p.swapped ==> p.ppn in s.used
    requires p.v != p.swapped
    ensures CopyData(Evict(s, slot), p) == if p.v && p.ppn == s.ring[0] then Filled(1) else CopyData(s, p)
  {
    hide Lists, BackOk, TablesOk, TreeOk, PtesOk, Unshared, SlotsOk, SwapArea, WalksOk;
    SwapOutEntryOk(s, slot);
  }

  lemma PopData(s: State, p: Pte)
    requires Inv(s) && s.free != []
    ensures CopyData(Pop(s), p) == if p.v && p.ppn == s.free[0] then Filled(5) else CopyData(s, p)
  {
    hide Inv, Memory;
  }

  /** A frame off the free list is not one that an entry maps. */
  lemma FreeUnmapped(s: State, from: Key)
    requires Inv(s) && from in s.ptes && s.free != []
    ensures s.ptes[from].v ==> s.ptes[from].ppn != s.free[0]
  {
    hide BackOk, TablesOk, TreeOk, Unshared, SlotsOk, SwapArea, WalksOk;
    assert s.free[0] in s.free;
  }

  lemma EntryHome(s: State, from: Key)
    requires Inv(s) && from in s.ptes
    ensures var p := s.ptes[from]; p.v != p.swapped && (p.swapped ==> p.ppn in s.used)
  {}

  /** The scan moves no page. */
  lemma ScanData(s: State, from: Key)
    requires Inv(s) && s.ring != [] && from in s.ptes
    ensures CopyData(Scan(s), s.ptes[from]) == View(s, from).data
  {
    hide Inv, Memory;
  }

  lemma CopyAfterEvict(s: State, from: Key)
    requires Inv(s) && from in s.ptes && s.free == [] && !CannotEvict(s)
    ensures CopyData(Kalloc(s).s, s.ptes[from]) == if Spoils(s, from) then Filled(5) else View(s, from).data
  {
    hide Inv, Memory, Outs, CopyData, View, Victim, KeepsOuts;
    ScanStopsAtVictim(s);
    EntryHome(s, from);
    ScanData(s, from);
    var t, p := Scan(s), s.ptes[from];
    var slot := FirstFree(t.used, 0);
    EvictData(t, slot, p);
    PopData(Evict(t, slot), p);
  }

  /** The copy is the page itself, or a page of fives exactly when kalloc evicted it. */
  lemma CopyDataIs(s: State, from: Key)
    requires Inv(s) && from in s.ptes && Kalloc(s).ok
    ensures CopyData(Kalloc(s).s, s.ptes[from]) == if Spoils(s, from) then Filled(5) else View(s, from).data
  {
    hide Inv, Memory, Outs, KeepsOuts, CannotEvict;
    if s.free != [] {
      PopData(s, s.ptes[from]);
      FreeUnmapped(s, from);
    } else {
      CopyAfterEvict(s, from);
    }
  }

  /** One round of uvmcopy's loop, after its kalloc. */
  function CopyInto(s: State, a: Alloc, src: Pte, to: Key): (r: Done)
    requires Allocated(s, a) && to !in Memory(s) && Root(to.root) in s.tables
    ensures Inv(r.s) && Outs(r.s) == Outs(s) && s.tables.Keys <= r.s.tables.Keys
    ensures r.ok ==> a.ok && Memory(r.s) == Memory(s)[to := UserPage(CopyData(a.s, src), src.r, src.w, src.x, src.u)]
    ensures !r.ok ==> Memory(r.s) == Memory(s)
  {
    hide Inv, Memory, Outs, Install;
    MemoryKeys(s);
    MemoryKeys(a.s);
    if a.ok then Install(a.s, to, src.(ppn := a.frame, v := true, swapped := false), CopyData(a.s, src))
    else Done(a.s, false)
  }

  lemma MemoryAt(s: State, k: Key)
    requires k in Memory(s)
    ensures k in s.ptes && Memory(s)[k] == View(s, k)
  {}

  function CopyPage(s: State, from: Key, to: Key): (r: Done)
    requires Inv(s) && from in Memory(s) && to !in Memory(s) && Root(to.root) in s.tables
    ensures Inv(r.s) && Outs(r.s) == Outs(s) && s.tables.Keys <= r.s.tables.Keys
    ensures r.ok ==> Memory(r.s) == Memory(s)[to := Copy(Memory(s)[from], Spoils(s, from))]
    ensures !r.ok ==> Memory(r.s) == Memory(s)
  {
    hide Inv, Memory, Outs, Kalloc, CopyData, Spoils, CopyInto;
    MemoryAt(s, from);
    var a := Kalloc(s);
    assert a.ok ==> CopyData(a.s, s.ptes[from]) == Copy(View(s, from), Spoils(s, from)).data by {
      if a.ok { CopyDataIs(s, from); }
    }
    CopyInto(s, a, s.ptes[from], to)
  }

  function Copy(p: UserPage, spoiled: bool): UserPage {
    if spoiled then p.(data := Filled(5)) else p
  }

  /** The pages of `parent` from `i` up to `n`, as uvmcopy leaves them in `new`. */
  function Copies(m: map<Key, UserPage>, parent: nat, child: nat, i: nat, n: nat, spoiled: set<nat>): map<Key, UserPage>
    requires Range(parent, i, n) <= m.Keys
  {
    map k | k in Range(child, i, n) && Key(parent, k.vpn) in m :: Copy(m[Key(parent, k.vpn)], k.vpn in spoiled)
  }

  ghost predicate CanCopy(s: State, parent: nat, child: nat, i: nat, n: nat) {
    Inv(s) && Root(child) in s.tables && RoomToCopy(Memory(s), parent, child, i, n)
  }

  /** The parent has its pages, and the child those before `i` and no later ones. */
  ghost predicate RoomToCopy(m: map<Key, UserPage>, parent: nat, child: nat, i: nat, n: nat) {
    && parent != child && i <= n && Range(parent, 0, n) <= m.Keys
    && Range(child, 0, i) <= m.Keys && Range(child, i, n) !! m.Keys
  }

  lemma MoreCopies(m: map<Key, UserPage>, parent: nat, child: nat, i: nat, n: nat, spoils: bool, later: set<nat>)
    requires i < n && parent != child && Range(parent, 0, n) <= m.Keys
    requires Range(child, 0, i) <= m.Keys && Range(child, i, n) !! m.Keys
    requires forall v :: v in later ==> i < v
    ensures Key(parent, i) in m && Key(child, i) !in m && Range(parent, i, n) <= m.Keys
    ensures var c := m[Key(child, i) := Copy(m[Key(parent, i)], spoils)];
      && Range(parent, 0, n) <= c.Keys && Range(parent, i + 1, n) <= c.Keys
      && Range(child, 0, i + 1) <= c.Keys && Range(child, i + 1, n) !! c.Keys
      && c + Copies(c, parent, child, i + 1, n, later)
         == m + Copies(m, parent, child, i, n, later + if spoils then {i} else {})
      && c - Range(child, 0, i + 1) == m - Range(child, 0, i)
  {
    assert Key(parent, i) in Range(parent, 0, n) && Key(child, i) in Range(child, i, n);
    RangeGrow(child, 0, i);
  }

  /** What one round of the loop does to the memory `m` users see. */
  ghost predicate PageCopied(m: map<Key, UserPage>, outs: set<nat>, d: Done, from: Key, to: Key, spoils: bool) {
    && Inv(d.s) && Outs(d.s) == outs && Root(to.root) in d.s.tables && from in m
    && Memory(d.s) == if d.ok then m[to := Copy(m[from], spoils)] else m
  }

  ghost predicate RangeCopied(m: map<Key, UserPage>, outs: set<nat>, r: Copied, parent: nat, child: nat, i: nat,
          n: nat) {
    && Inv(r.s) && Outs(r.s) == outs
    && (forall v {:trigger v in r.spoiled} :: v in r.spoiled ==> i <= v < n) && Range(parent, i, n) <= m.Keys
    && Memory(r.s) == if r.ok then m + Copies(m, parent, child, i, n, r.spoiled) else m - Range(child, 0, i)
  }

  /** The rest of the loop after the round `d` for page `i`. */
  function CopyRest(ghost m: map<Key, UserPage>, ghost outs: set<nat>, d: Done, spoils: bool, parent: nat,
          child: nat, i: nat, n: nat): (r: Copied)
    requires RoomToCopy(m, parent, child, i, n) && i < n
    requires PageCopied(m, outs, d, Key(parent, i), Key(child, i), spoils)
    ensures RangeCopied(m, outs, r, parent, child, i, n)
    decreases n - i, 0
  {
    hide Inv, Memory, Outs, Range, Copies, UvmUnmap;
    MoreCopies(m, parent, child, i, n, spoils, {});
    if !d.ok then Copied(UvmUnmap(d.s, child, 0, i), false, {}) else
    var r := UvmCopy(d.s, parent, child, i + 1, n);
    MoreCopies(m, parent, child, i, n, spoils, r.spoiled);
    r.(spoiled := r.spoiled + if spoils then {i} else {})
  }

  /** uvmcopy from page `i`; `spoiled` collects the pages kalloc evicted under the copy. */
  function UvmCopy(s: State, parent: nat, child: nat, i: nat, n: nat): (r: Copied)
    requires CanCopy(s, parent, child, i, n)
    ensures RangeCopied(Memory(s), Outs(s), r, parent, child, i, n)
    decreases n - i, 1
  {
    hide Inv, Memory, Outs, CopyPage, Spoils;
    if i >= n then Copied(s, true, {}) else
    assert Key(parent, i) in Range(parent, 0, n) && Key(child, i) in Range(child, i, n);
    var d := CopyPage(s, Key(parent, i), Key(child, i));
    CopyRest(Memory(s), Outs(s), d, Spoils(s, Key(parent, i)), parent, child, i, n)
  }

  /** The child sees the parent's memory, page for page. */
  ghost predicate Exact(m: map<Key, UserPage>, parent: nat, child: nat, n: nat) {
    forall v: nat {:trigger Key(child, v)} :: v < n ==>
      Key(parent, v) in m && Key(child, v) in m && m[Key(child, v)] == m[Key(parent, v)]
  }

  lemma ExactIff(m: map<Key, UserPage>, parent: nat, child: nat, n: nat, spoiled: set<nat>)
    requires parent != child && Range(parent, 0, n) <= m.Keys && forall v :: v in spoiled ==> v < n
    ensures Exact(m + Copies(m, parent, child, 0, n, spoiled), parent, child, n)
            <==> forall v :: v in spoiled ==> Key(parent, v) in m && m[Key(parent, v)].data == Filled(5)
  {
    var t := m + Copies(m, parent, child, 0, n, spoiled);
    forall v: nat | v < n
      ensures Key(parent, v) in m && Key(child, v) in t && Key(parent, v) in t
      ensures t[Key(parent, v)] == m[Key(parent, v)] && t[Key(child, v)] == Copy(m[Key(parent, v)], v in spoiled)
    {
      assert Key(parent, v) in Range(parent, 0, n) && Key(child, v) in Range(child, 0, n);
      assert Key(parent, v) !in Range(child, 0, n);
    }
  }

  // ---- the rounds, one by one ----

  /** uvmcopy's first rounds, from page `i` up to page `v`, or up to the first that fails. */
  function Rounds(s: State, parent: nat, child: nat, i: nat, v: nat, n: nat): (d: Done)
    requires CanCopy(s, parent, child, i, n) && i <= v <= n
    ensures d.ok ==> CanCopy(d.s, parent, child, v, n)
    decreases v - i
  {
    hide Inv, Memory, Outs, CopyPage, Range, Spoils;
    if i == v then Done(s, true) else
    MoreCopies(Memory(s), parent, child, i, n, Spoils(s, Key(parent, i)), {});
    var d := CopyPage(s, Key(parent, i), Key(child, i));
    if d.ok then Rounds(d.s, parent, child, i + 1, v, n) else d
  }

  /** The round for page `v` is reached, and kalloc then evicts the page it is about to copy. */
  ghost predicate SpoilsRound(s: State, parent: nat, child: nat, i: nat, v: nat, n: nat)
    requires CanCopy(s, parent, child, i, n) && i <= v < n
  {
    var d := Rounds(s, parent, child, i, v, n);
    d.ok && Spoils(d.s, Key(parent, v))
  }

  /** uvmcopy succeeds exactly when every round does, and the pages it spoils are those whose
      own round found them at the clock hand. */
  lemma {:induction false} SpoiledRounds(s: State, parent: nat, child: nat, i: nat, n: nat)
    requires CanCopy(s, parent, child, i, n)
    ensures var r := UvmCopy(s, parent, child, i, n);
      && (r.ok <==> Rounds(s, parent, child, i, n, n).ok)
      && (r.ok ==> forall v: nat {:trigger v in r.spoiled} :: i <= v < n ==>
            (v in r.spoiled <==> SpoilsRound(s, parent, child, i, v, n)))
    decreases n - i
  {
    hide Inv, Memory, Outs, CopyPage, Range, Spoils, Copies;
    if i < n {
      MoreCopies(Memory(s), parent, child, i, n, Spoils(s, Key(parent, i)), {});
      var d := CopyPage(s, Key(parent, i), Key(child, i));
      if d.ok { SpoiledRounds(d.s, parent, child, i + 1, n); }
    }
  }

  /** fork copies memory exactly if and only if every page that its own round finds at the
      clock hand already holds nothing but fives. */
  lemma ForkExact(s: State, parent: nat, child: nat, n: nat)
    requires CanCopy(s, parent, child, 0, n)
    ensures var r := UvmCopy(s, parent, child, 0, n);
      r.ok ==>
        (Exact(Memory(r.s), parent, child, n)
         <==> forall v: nat {:trigger Key(parent, v)} :: v < n && SpoilsRound(s, parent, child, 0, v, n) ==>
                Key(parent, v) in Memory(s) && Memory(s)[Key(parent, v)].data == Filled(5))
  {
    hide Inv, Memory, Outs, CopyPage, Range, Spoils, Copies, Exact, UvmCopy, SpoilsRound;
    ExactIff(Memory(s), parent, child, n, UvmCopy(s, parent, child, 0, n).spoiled);
    SpoiledRounds(s, parent, child, 0, n);
  }
}
