/** Three-level page tables (kernel/vm.c:163-193; Sv39 in section 4.4 of the RISC-V Privileged
    Architecture, version 20211203) as a flat map from pages to page-table entries.

    Tables are named by the frame they occupy; an entry is a number whose low ten bits are flags. */
module Sv39Model {
  import opened RiscV

  type Table = seq<nat>  // 512 entries

  /** The index of a virtual address at a level. */
  function PX(level: nat, va: nat): (r: nat)
    ensures r < 512
  {
    if level == 0 then va / 0x1000 % 512 else if level == 1 then va / 0x20_0000 % 512 else va / 0x4000_0000 % 512
  }

  predicate Valid(w: nat) { w % 2 == 1 }
  predicate Leaf(w: nat) { w / 2 % 8 != 0 }  // any of R, W and X
  function Frame(w: nat): nat { w / 1024 }

  /** The entry that points to a lower table: PA2PTE(pa) | PTE_V. */
  function TableWord(f: nat): nat { MapWord(f * PGSIZE, 0) }

  lemma PointerWord(f: nat)
    ensures TableWord(f) == f * 1024 + 1
  {
    assert Pow2(10) == 1024 && Pow2(12) == 4096;
    assert f * PGSIZE / 4096 == f;
  }

  lemma PointerBits(f: nat)
    ensures (f * 1024 + 1) % 2 == 1 && (f * 1024 + 1) / 2 == 8 * (64 * f) && (f * 1024 + 1) / 1024 == f
    ensures (f * 1024 + 1) / 2 % 8 == 0
  {}

  lemma TableWordIs(f: nat)
    ensures Valid(TableWord(f)) && !Leaf(TableWord(f)) && Frame(TableWord(f)) == f
  {
    hide TableWord;
    PointerWord(f);
    PointerBits(f);
  }

  function NewTable(): (t: Table)
    ensures |t| == 512 && forall i :: 0 <= i < 512 ==> t[i] == 0
  {
    seq(512, i => 0)
  }

  /** Where the entry of an address is. */
  datatype Slot = NoSlot | Slot(f: nat, i: nat)

  /** kernel/vm.c:181-192 without allocation, from table `f` at `level` down. */
  function Walk(m: map<nat, Table>, f: nat, level: nat, va: nat): Slot
    decreases level
  {
    if f !in m || |m[f]| != 512 then NoSlot
    else if level == 0 then Slot(f, PX(0, va))
    else if Valid(m[f][PX(level, va)]) then Walk(m, Frame(m[f][PX(level, va)]), level - 1, va)
    else NoSlot
  }

  function At(m: map<nat, Table>, s: Slot): nat {
    if s.Slot? && s.f in m && s.i < |m[s.f]| then m[s.f][s.i] else 0
  }

  /** The entry for `va` in the page table at `root`, or 0. */
  function Look(m: map<nat, Table>, root: nat, va: nat): nat { At(m, Walk(m, root, 2, va)) }

  /** Distinct pages below MAXVA have distinct index triples. */
  lemma IndicesDiffer(va: nat, vb: nat)
    requires va < MAXVA && vb < MAXVA
    ensures va / PGSIZE == vb / PGSIZE <==> PX(2, va) == PX(2, vb) && PX(1, va) == PX(1, vb) && PX(0, va) == PX(0, vb)
  {
    Digits(va);
    Digits(vb);
  }

  lemma Digits(va: nat)
    requires va < MAXVA
    ensures va / PGSIZE == PX(2, va) * 0x4_0000 + PX(1, va) * 512 + PX(0, va)
  {
    var p := va / PGSIZE;
    assert va / 0x20_0000 == p / 512 && va / 0x4000_0000 == p / 0x4_0000;
  }

  // ---- the invariant ----

  datatype Up = Root | Entry(parent: nat, index: nat)

  /** A table has 512 entries and one place it hangs from; a root hangs from nowhere. */
  ghost predicate TableOk(m: map<nat, Table>, up: map<nat, Up>, lvl: map<nat, nat>, f: nat) {
    f in m ==>
      && |m[f]| == 512 && f in lvl && f in up && lvl[f] <= 2 && (lvl[f] == 2 <==> up[f].Root?)
      && (up[f].Entry? ==>
            var p, i := up[f].parent, up[f].index;
            p in m && p in lvl && lvl[p] == lvl[f] + 1 && i < 512 && |m[p]| == 512 && m[p][i] == TableWord(f))
  }

  /** A valid entry above level 0 leads to a table that hangs from it. */
  ghost predicate EntryOk(m: map<nat, Table>, up: map<nat, Up>, lvl: map<nat, nat>, f: nat, i: nat) {
    f in m && f in lvl && lvl[f] > 0 && i < |m[f]| && Valid(m[f][i]) ==>
      var c := Frame(m[f][i]);
      m[f][i] == TableWord(c) && c in m && c in lvl && c in up && lvl[c] == lvl[f] - 1 && up[c] == Entry(f, i)
  }

  ghost predicate Inv(m: map<nat, Table>, up: map<nat, Up>, lvl: map<nat, nat>) {
    && (forall f: nat {:trigger TableOk(m, up, lvl, f)} :: TableOk(m, up, lvl, f))
    && (forall f: nat, i: nat {:trigger EntryOk(m, up, lvl, f, i)} :: EntryOk(m, up, lvl, f, i))
  }

  /** Two walks that end in the same entry began at the same table with the same indices. */
  lemma {:induction false} WalkInjective(m: map<nat, Table>, up: map<nat, Up>, lvl: map<nat, nat>, f: nat, g: nat,
          level: nat, va: nat, vb: nat)
    requires Inv(m, up, lvl) && f in m && g in m && f in lvl && g in lvl && lvl[f] == lvl[g] == level
    requires Walk(m, f, level, va).Slot? && Walk(m, f, level, va) == Walk(m, g, level, vb)
    ensures f == g && forall k :: 0 <= k <= level ==> PX(k, va) == PX(k, vb)
    decreases level
  {
    if level > 0 {
      assert EntryOk(m, up, lvl, f, PX(level, va)) && EntryOk(m, up, lvl, g, PX(level, vb));
      WalkInjective(m, up, lvl, Frame(m[f][PX(level, va)]), Frame(m[g][PX(level, vb)]), level - 1, va, vb);
    }
  }

  /** Entries of distinct pages, or of distinct page tables, are distinct. */
  lemma SlotsDiffer(m: map<nat, Table>, up: map<nat, Up>, lvl: map<nat, nat>, r: nat, s: nat, va: nat, vb: nat)
    requires Inv(m, up, lvl) && IsRoot(m, up, r) && IsRoot(m, up, s) && va < MAXVA && vb < MAXVA
    requires Walk(m, r, 2, va).Slot? && Walk(m, r, 2, va) == Walk(m, s, 2, vb)
    ensures r == s && va / PGSIZE == vb / PGSIZE
  {
    assert TableOk(m, up, lvl, r) && TableOk(m, up, lvl, s);
    WalkInjective(m, up, lvl, r, s, 2, va, vb);
    IndicesDiffer(va, vb);
  }

  predicate IsRoot(m: map<nat, Table>, up: map<nat, Up>, r: nat) { r in m && r in up && up[r].Root? }

  /** Addresses in one page share their entry. */
  lemma {:induction false} SamePage(m: map<nat, Table>, f: nat, level: nat, va: nat, vb: nat)
    requires level <= 2 && va < MAXVA && vb < MAXVA && va / PGSIZE == vb / PGSIZE
    ensures Walk(m, f, level, va) == Walk(m, f, level, vb)
    decreases level
  {
    IndicesDiffer(va, vb);
    if level > 0 && f in m && |m[f]| == 512 { SamePage(m, Frame(m[f][PX(level, va)]), level - 1, va, vb); }
  }

  // ---- storing an entry ----

  function SetAt(t: Table, i: nat, w: nat): Table
    requires i < |t|
  {
    t[i := w]
  }

  function Store(m: map<nat, Table>, f: nat, i: nat, w: nat): map<nat, Table>
    requires f in m && i < |m[f]|
  {
    m[f := SetAt(m[f], i, w)]
  }

  lemma StoreInv(m: map<nat, Table>, up: map<nat, Up>, lvl: map<nat, nat>, f: nat, i: nat, w: nat)
    requires Inv(m, up, lvl) && f in m && f in lvl && lvl[f] == 0 && i < 512
    ensures |m[f]| == 512 && Inv(Store(m, f, i, w), up, lvl)
  {
    assert TableOk(m, up, lvl, f);
    var n := Store(m, f, i, w);
    forall g: nat ensures TableOk(n, up, lvl, g) { assert TableOk(m, up, lvl, g); }
    forall g: nat, j: nat ensures EntryOk(n, up, lvl, g, j) { assert EntryOk(m, up, lvl, g, j); }
  }

  /** Storing in a lowest table changes no walk. */
  lemma {:induction false} StoreWalk(m: map<nat, Table>, up: map<nat, Up>, lvl: map<nat, nat>, f: nat, i: nat,
          w: nat, g: nat, level: nat, va: nat)
    requires Inv(m, up, lvl) && f in m && f in lvl && lvl[f] == 0 && i < |m[f]| && g in m && g in lvl && lvl[g] == level
    ensures Walk(Store(m, f, i, w), g, level, va) == Walk(m, g, level, va)
    decreases level
  {
    if level > 0 && |m[g]| == 512 {
      assert EntryOk(m, up, lvl, g, PX(level, va));
      if Valid(m[g][PX(level, va)]) { StoreWalk(m, up, lvl, f, i, w, Frame(m[g][PX(level, va)]), level - 1, va); }
    }
  }

  /** The flat view of a store: the entry of that page in that page table, and no other. */
  lemma StoreLook(m: map<nat, Table>, up: map<nat, Up>, lvl: map<nat, nat>, r: nat, va: nat, w: nat, s: nat, vb: nat)
    requires Inv(m, up, lvl) && IsRoot(m, up, r) && IsRoot(m, up, s) && va < MAXVA && vb < MAXVA
    requires Walk(m, r, 2, va).Slot?
    ensures var p := Walk(m, r, 2, va); p.f in m && p.i < |m[p.f]|
    ensures var p := Walk(m, r, 2, va);
      Look(Store(m, p.f, p.i, w), s, vb) == if s == r && vb / PGSIZE == va / PGSIZE then w else Look(m, s, vb)
  {
    assert TableOk(m, up, lvl, r) && TableOk(m, up, lvl, s);
    var p := Walk(m, r, 2, va);
    WalkEnds(m, up, lvl, r, 2, va);
    StoreWalk(m, up, lvl, p.f, p.i, w, s, 2, vb);
    if Walk(m, s, 2, vb) == p { SlotsDiffer(m, up, lvl, r, s, va, vb); }
    if s == r && vb / PGSIZE == va / PGSIZE { SamePage(m, r, 2, va, vb); }
    if Walk(m, s, 2, vb).Slot? { WalkEnds(m, up, lvl, s, 2, vb); }
  }

  lemma {:induction false} WalkEnds(m: map<nat, Table>, up: map<nat, Up>, lvl: map<nat, nat>, f: nat, level: nat,
          va: nat)
    requires Inv(m, up, lvl) && f in m && f in lvl && lvl[f] == level && Walk(m, f, level, va).Slot?
    ensures var p := Walk(m, f, level, va);
      p.f in m && p.f in lvl && lvl[p.f] == 0 && |m[p.f]| == 512 && p.i == PX(0, va)
    decreases level
  {
    if level > 0 {
      assert EntryOk(m, up, lvl, f, PX(level, va));
      WalkEnds(m, up, lvl, Frame(m[f][PX(level, va)]), level - 1, va);
    }
  }

  // ---- adding a table ----

  /** A zeroed table in frame `c`, hung from entry `i` of table `f`. */
  function AddTable(m: map<nat, Table>, f: nat, i: nat, c: nat): map<nat, Table>
    requires f in m && i < |m[f]|
  {
    m[f := SetAt(m[f], i, TableWord(c))][c := NewTable()]
  }

  lemma AddTableInv(m: map<nat, Table>, up: map<nat, Up>, lvl: map<nat, nat>, f: nat, i: nat, c: nat)
    requires Inv(m, up, lvl) && f in m && f in lvl && lvl[f] > 0 && i < 512 && |m[f]| == 512 && !Valid(m[f][i])
    requires c !in m
    ensures Inv(AddTable(m, f, i, c), up[c := Entry(f, i)], lvl[c := lvl[f] - 1])
  {
    var n, up', lvl' := AddTable(m, f, i, c), up[c := Entry(f, i)], lvl[c := lvl[f] - 1];
    TableWordIs(c);
    assert TableOk(m, up, lvl, f);
    forall g: nat ensures TableOk(n, up', lvl', g) {
      assert TableOk(m, up, lvl, g);
      if g in m && up[g].Entry? { TableWordIs(g); }
    }
    forall g: nat, j: nat ensures EntryOk(n, up', lvl', g, j) { assert EntryOk(m, up, lvl, g, j); }
  }

  /** A new table is empty below: creating it changes no translation. */
  lemma {:induction false} AddTableLook(m: map<nat, Table>, up: map<nat, Up>, lvl: map<nat, nat>, f: nat, i: nat,
          c: nat, g: nat, level: nat, va: nat)
    requires Inv(m, up, lvl) && f in m && f in lvl && lvl[f] > 0 && i < 512 && |m[f]| == 512 && !Valid(m[f][i])
    requires c !in m
    requires g in m && g in lvl && lvl[g] == level <= 2
    ensures var n := AddTable(m, f, i, c); At(n, Walk(n, g, level, va)) == At(m, Walk(m, g, level, va))
    decreases level
  {
    var n := AddTable(m, f, i, c);
    assert TableOk(m, up, lvl, g);
    TableWordIs(c);
    if level > 0 {
      assert EntryOk(m, up, lvl, g, PX(level, va));
      if Valid(m[g][PX(level, va)]) {
        AddTableLook(m, up, lvl, f, i, c, Frame(m[g][PX(level, va)]), level - 1, va);
      } else if g == f && PX(level, va) == i {
        assert Walk(n, g, level, va) == Walk(n, c, level - 1, va);
        assert At(n, Walk(n, c, level - 1, va)) == 0;
      }
    }
  }

  // ---- walking part of the way ----

  /** The walk for `va` from `f` at `level` gets to table `cur` at `lv`. */
  predicate Reaches(m: map<nat, Table>, f: nat, level: nat, va: nat, cur: nat, lv: nat)
    decreases level
  {
    if level <= lv then level == lv && f == cur else
    && f in m && |m[f]| == 512 && Valid(m[f][PX(level, va)])
    && Reaches(m, Frame(m[f][PX(level, va)]), level - 1, va, cur, lv)
  }

  lemma {:induction false} ReachesWalk(m: map<nat, Table>, f: nat, level: nat, va: nat, cur: nat, lv: nat)
    requires Reaches(m, f, level, va, cur, lv)
    ensures Walk(m, f, level, va) == Walk(m, cur, lv, va)
    decreases level
  {
    if level > lv { ReachesWalk(m, Frame(m[f][PX(level, va)]), level - 1, va, cur, lv); }
  }

  lemma {:induction false} ReachesOn(m: map<nat, Table>, f: nat, level: nat, va: nat, cur: nat, lv: nat)
    requires Reaches(m, f, level, va, cur, lv) && lv > 0 && cur in m && |m[cur]| == 512 && Valid(m[cur][PX(lv, va)])
    ensures Reaches(m, f, level, va, Frame(m[cur][PX(lv, va)]), lv - 1)
    decreases level
  {
    if level > lv { ReachesOn(m, Frame(m[f][PX(level, va)]), level - 1, va, cur, lv); }
  }

  lemma {:induction false} AddTableReaches(m: map<nat, Table>, up: map<nat, Up>, lvl: map<nat, nat>, f: nat,
          i: nat, c: nat, g: nat, level: nat, va: nat, cur: nat, lv: nat)
    requires Inv(m, up, lvl) && f in m && f in lvl && lvl[f] > 0 && i < 512 && |m[f]| == 512 && !Valid(m[f][i])
    requires c !in m
    requires g in m && Reaches(m, g, level, va, cur, lv) && g in lvl && lvl[g] == level
    ensures Reaches(AddTable(m, f, i, c), g, level, va, cur, lv)
    decreases level
  {
    if level > lv {
      assert EntryOk(m, up, lvl, g, PX(level, va));
      AddTableReaches(m, up, lvl, f, i, c, Frame(m[g][PX(level, va)]), level - 1, va, cur, lv);
    }
  }

  // ---- a page table on its own ----

  /** The entry of table `f` below which table `g` hangs, or -1. */
  function Branch(up: map<nat, Up>, f: nat, g: nat): int {
    if g !in up || up[g].Root? then -1
    else if up[g].parent == f then up[g].index
    else if up[g].parent in up && up[up[g].parent].Entry? && up[up[g].parent].parent == f then up[up[g].parent].index
    else -1
  }

  predicate Under(up: map<nat, Up>, f: nat, g: nat) { g == f || Branch(up, f, g) >= 0 }

  /** What hangs below entry `i` of `f` is what is under the table that entry points to. */
  lemma BranchIs(m: map<nat, Table>, up: map<nat, Up>, lvl: map<nat, nat>, f: nat, i: nat, c: nat, g: nat)
    requires Inv(m, up, lvl) && f in m && g in m && c in m && c in up && up[c] == Entry(f, i)
    ensures Under(up, c, g) <==> Branch(up, f, g) == i
  {
    assert TableOk(m, up, lvl, f) && TableOk(m, up, lvl, g) && TableOk(m, up, lvl, c);
    TableWordIs(c);
    TableWordIs(g);
    if g in up && up[g].Entry? {
      assert TableOk(m, up, lvl, up[g].parent);
      TableWordIs(up[g].parent);
    }
  }

  /** An entry that is not valid has nothing below it. */
  lemma NothingBelow(m: map<nat, Table>, up: map<nat, Up>, lvl: map<nat, nat>, f: nat, i: nat, g: nat)
    requires Inv(m, up, lvl) && f in m && |m[f]| == 512 && i < 512 && !Valid(m[f][i]) && g in m
    ensures Branch(up, f, g) != i && Branch(up, f, g) < 512
  {
    assert TableOk(m, up, lvl, g);
    TableWordIs(g);
    if up[g].Entry? {
      assert TableOk(m, up, lvl, up[g].parent);
      TableWordIs(up[g].parent);
    }
  }

  /** No valid entry in the lowest tables under `f`. */
  ghost predicate Leafless(m: map<nat, Table>, up: map<nat, Up>, lvl: map<nat, nat>, f: nat) {
    forall g, i {:trigger m[g][i]} :: g in m && Under(up, f, g) && g in lvl && lvl[g] == 0 && 0 <= i < |m[g]| ==>
      !Valid(m[g][i])
  }

  /** All tables but those under `f`. */
  function Pruned(m: map<nat, Table>, up: map<nat, Up>, f: nat): map<nat, Table>
  {
    map g | g in m && !Under(up, f, g) :: m[g]
  }

  lemma PrunedInv(m: map<nat, Table>, up: map<nat, Up>, lvl: map<nat, nat>, r: nat)
    requires Inv(m, up, lvl) && IsRoot(m, up, r)
    ensures Inv(Pruned(m, up, r), up, lvl)
  {
    var n := Pruned(m, up, r);
    forall g: nat ensures TableOk(n, up, lvl, g) {
      assert TableOk(m, up, lvl, g);
      if g in n && up[g].Entry? {
        var p := up[g].parent;
        assert TableOk(m, up, lvl, p);
        if up[p].Entry? { assert TableOk(m, up, lvl, up[p].parent); }
      }
    }
    forall g: nat, i: nat ensures EntryOk(n, up, lvl, g, i) {
      assert EntryOk(m, up, lvl, g, i); assert TableOk(m, up, lvl, g);
    }
  }

  /** Removing one page table leaves the translations of every other as they were. */
  lemma {:induction false} PrunedWalk(m: map<nat, Table>, up: map<nat, Up>, lvl: map<nat, nat>, r: nat, f: nat,
          level: nat, va: nat)
    requires Inv(m, up, lvl) && IsRoot(m, up, r) && f in m && f in lvl && lvl[f] == level && !Under(up, r, f)
    ensures var n := Pruned(m, up, r);
      Walk(n, f, level, va) == Walk(m, f, level, va) && At(n, Walk(n, f, level, va)) == At(m, Walk(m, f, level, va))
    decreases level
  {
    assert TableOk(m, up, lvl, f);
    if level > 0 && Valid(m[f][PX(level, va)]) {
      assert EntryOk(m, up, lvl, f, PX(level, va));
      PrunedWalk(m, up, lvl, r, Frame(m[f][PX(level, va)]), level - 1, va);
    }
  }
}
