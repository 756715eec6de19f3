/** walk, mappages, uvmunmap and freewalk (kernel/vm.c) over tables changed in place. */
module Sv39Code {
  import opened Sv39Model
  import opened RiscV

  /** Every page of every page table looks the same in `n` as in `m`. */
  ghost predicate SameLooks(m: map<nat, Table>, n: map<nat, Table>, up: map<nat, Up>) {
    forall s: nat, vb: nat {:trigger Look(n, s, vb)} :: IsRoot(m, up, s) && vb < MAXVA ==>
      Look(n, s, vb) == Look(m, s, vb)
  }

  ghost predicate SameRoots(m: map<nat, Table>, up: map<nat, Up>, n: map<nat, Table>, up': map<nat, Up>) {
    forall s: nat {:trigger IsRoot(n, up', s)} :: IsRoot(n, up', s) <==> IsRoot(m, up, s)
  }

  /** The first `k` pages from `va` map to the frames from `pa` on; all else looks as it did. */
  ghost predicate Mapped(m: map<nat, Table>, n: map<nat, Table>, up: map<nat, Up>, r: nat, va: nat, k: nat,
          pa: nat, perm: nat)
    requires perm < 1024
  {
    forall s: nat, vb: nat {:trigger Look(n, s, vb)} :: IsRoot(m, up, s) && vb < MAXVA ==>
      Look(n, s, vb) == var j := vb / PGSIZE - va / PGSIZE;
        if s == r && 0 <= j < k then MapWord(pa + j * PGSIZE, perm) else Look(m, s, vb)
  }

  /** The first `k` pages from `va` have no entry; all else looks as it did. */
  ghost predicate Unmapped(m: map<nat, Table>, n: map<nat, Table>, up: map<nat, Up>, r: nat, va: nat, k: nat) {
    forall s: nat, vb: nat {:trigger Look(n, s, vb)} :: IsRoot(m, up, s) && vb < MAXVA ==>
      Look(n, s, vb) == var j := vb / PGSIZE - va / PGSIZE; if s == r && 0 <= j < k then 0 else Look(m, s, vb)
  }

  /** Every page table but the one at `root` is there and looks the same. */
  ghost predicate OthersSame(m: map<nat, Table>, n: map<nat, Table>, up: map<nat, Up>, root: nat) {
    forall r: nat, va: nat {:trigger Look(n, r, va)} :: IsRoot(m, up, r) && r != root && va < MAXVA ==>
      IsRoot(n, up, r) && Look(n, r, va) == Look(m, r, va)
  }

  /** A leaf in memory, with some flag besides V, or a page swapped out (PTE_SWAPPED is bit 9). */
  predicate Present(w: nat) { if Sv39Model.Valid(w) then w % 1024 != 1 else w / 512 % 2 == 1 }

  /** The frames of tables and those on the free list, taken together, are the same: none is lost. */
  ghost predicate SameFrames(m: map<nat, Table>, free: seq<nat>, n: map<nat, Table>, free': seq<nat>) {
    forall f: nat {:trigger f in n} {:trigger f in free'} :: f in n || f in free' <==> f in m || f in free
  }

  lemma FramesTwice(m: map<nat, Table>, free: seq<nat>, n: map<nat, Table>, free': seq<nat>, o: map<nat, Table>,
          free'': seq<nat>)
    requires SameFrames(m, free, n, free') && SameFrames(n, free', o, free'')
    ensures SameFrames(m, free, o, free'')
  {
    forall f: nat ensures f in o || f in free'' <==> f in m || f in free {
      assert f in o || f in free'' <==> f in n || f in free';
    }
  }

  lemma SameFramesRefl(m: map<nat, Table>, free: seq<nat>)
    ensures SameFrames(m, free, m, free)
  {}

  lemma StoreFrames(m: map<nat, Table>, f: nat, i: nat, w: nat, free: seq<nat>)
    requires f in m && i < |m[f]|
    ensures SameFrames(m, free, Store(m, f, i, w), free)
  {}

  /** A frame goes from the head of the free list to a table. */
  lemma FrameUsed(m: map<nat, Table>, free: seq<nat>, n: map<nat, Table>)
    requires free != [] && n.Keys == m.Keys + {free[0]}
    ensures SameFrames(m, free, n, free[1..])
  {
    assert free == [free[0]] + free[1..];
  }

  /** No frame occurs twice. */
  ghost predicate Once(s: seq<nat>) { forall j, k :: 0 <= j < k < |s| ==> s[j] != s[k] }

  class PageTables {
    var m: map<nat, Table>
    var free: seq<nat>  // kmem.freelist
    ghost var up: map<nat, Up>
    ghost var lvl: map<nat, nat>

    ghost predicate Valid()
      reads this
    {
      Inv(m, up, lvl) && FreeOk(free, m)
    }

    /** No page tables yet. */
    constructor (free: seq<nat>)
      requires Once(free)
      ensures Valid() && m == map[] && this.free == free
    {
      m, up, lvl := map[], map[], map[];
      this.free := free;
    }

    /** uvmcreate (kernel/vm.c:320-330): an empty page table, or none if memory is short. */
    method UvmCreate() returns (ok: bool, root: nat)
      requires Valid()
      modifies this
      ensures Valid() && (ok <==> old(free) != [])
      ensures !ok ==> m == old(m) && up == old(up) && free == []
      ensures ok ==> !IsRoot(old(m), old(up), root) && IsRoot(m, up, root) && forall va: nat :: va < MAXVA ==>
        Look(m, root, va) == 0
      ensures ok ==> OthersSame(old(m), m, old(up), root) && forall r: nat :: IsRoot(old(m), old(up), r) ==>
        IsRoot(m, up, r)
      ensures SameFrames(old(m), old(free), m, free)
    {
      hide Inv, Look, FreeOk, SameFrames;
      SameFramesRefl(m, free);
      if free == [] { return false, 0; }
      root := free[0];
      NewRoot(m, up, lvl, free);
      FrameUsed(m, free, m[root := NewTable()]);
      m, up, lvl, free := m[root := NewTable()], up[root := Root], lvl[root := 2], free[1..];
      ok := true;
    }

    /** kernel/vm.c:185-190: a table page below entry `i` of table `f`, on the way to `va`. */
    method AddLevel(ghost root: nat, ghost va: nat, f: nat, i: nat, ghost level: nat, ghost m0: map<nat, Table>,
                    ghost up0: map<nat, Up>, ghost free0: seq<nat>) returns (c: nat)
      requires Valid() && IsRoot(m, up, root) && free != [] && f in m && f in lvl && lvl[f] == level > 0
      requires |m[f]| == 512 && i == PX(level, va) && !Sv39Model.Valid(m[f][i]) && Reaches(m, root, 2, va, f, level)
      requires SameRoots(m0, up0, m, up) && SameLooks(m0, m, up0) && SameFrames(m0, free0, m, free)
      modifies this
      ensures Valid() && IsRoot(m, up, root) && c in m && c in lvl && lvl[c] == level - 1 && |m[c]| == 512
      ensures SameRoots(m0, up0, m, up) && SameLooks(m0, m, up0) && SameFrames(m0, free0, m, free)
      ensures Reaches(m, root, 2, va, c, level - 1)
    {
      hide Inv, Look, Sv39Model.Walk, Reaches, SameFrames, SameLooks, SameRoots;
      c := free[0];
      Extend(m, up, lvl, free, root, va, f, level, c);
      StillSame(m0, up0, m, up, lvl, f, i, c);
      FrameUsed(m, free, AddTable(m, f, i, c));
      FramesTwice(m0, free0, m, free, AddTable(m, f, i, c), free[1..]);
      m := AddTable(m, f, i, c);
      up, lvl := up[c := Entry(f, i)], lvl[c := lvl[f] - 1];
      free := free[1..];
    }

    /** kernel/vm.c:176-193. The entry is number `i` of table `f`. */
    method Walk(root: nat, va: nat, alloc: bool) returns (ok: bool, f: nat, i: nat)
      requires Valid() && IsRoot(m, up, root) && va < MAXVA
      modifies this
      ensures Valid() && SameRoots(old(m), old(up), m, up) && SameLooks(old(m), m, old(up))
      ensures SameFrames(old(m), old(free), m, free)
      ensures ok ==> Sv39Model.Walk(m, root, 2, va) == Slot(f, i)
      ensures !ok ==> (!alloc || free == []) && Sv39Model.Walk(m, root, 2, va) == NoSlot
      ensures !alloc ==> m == old(m) && free == old(free) && up == old(up) && lvl == old(lvl)
    {
      hide Inv, Look, Sv39Model.Walk, Reaches, SameFrames;
      SameFramesRefl(m, free);
      f, i := root, 0;
      var level := 2;
      WalkStart(m, up, lvl, root, va);
      while level > 0
        invariant 0 <= level <= 2 && Valid() && IsRoot(m, up, root) && SameRoots(old(m), old(up), m, up)
        invariant SameLooks(old(m), m, old(up)) && SameFrames(old(m), old(free), m, free)
        invariant f in m && f in lvl && lvl[f] == level && |m[f]| == 512 && Reaches(m, root, 2, va, f, level)
        invariant !alloc ==> m == old(m) && free == old(free) && up == old(up) && lvl == old(lvl)
      {
        i := PX(level, va);
        if Sv39Model.Valid(m[f][i]) {
          Descend(m, up, lvl, root, va, f, level);
          f := Frame(m[f][i]);
        } else {
          if !alloc || free == [] {
            ReachesWalk(m, root, 2, va, f, level);
            WalkStuck(m, f, level, va);
            return false, 0, 0;
          }
          f := AddLevel(root, va, f, i, level, old(m), old(up), old(free));
        }
        level := level - 1;
      }
      ReachesWalk(m, root, 2, va, f, 0);
      i := PX(0, va);
      WalkHere(m, f, va);
      return true, f, i;
    }

    /** kernel/vm.c:234-262, for a range that is aligned, not empty, below MAXVA and not mapped:
        anything else panics. `done` counts the pages mapped. */
    method MapPages(root: nat, va: nat, size: nat, pa: nat, perm: nat) returns (ok: bool, ghost done: nat)
      requires Valid() && IsRoot(m, up, root) && va % PGSIZE == 0 && size % PGSIZE == 0 && 0 < size
      requires va + size <= MAXVA
      requires perm < 1024
      requires forall a: nat :: va <= a < va + size ==> !Sv39Model.Valid(Look(m, root, a))
      modifies this
      ensures Valid() && SameRoots(old(m), old(up), m, up) && Mapped(old(m), m, old(up), root, va, done, pa, perm)
      ensures SameFrames(old(m), old(free), m, free)
      ensures ok ==> done == size / PGSIZE
      ensures !ok ==> done < size / PGSIZE && free == []
    {
      hide Inv, Look, Sv39Model.Walk, FreeOk, MapWord, Mapped, SameLooks, SameRoots, IsRoot, SameFrames;
      SameFramesRefl(m, free);
      var a, last, p := va, va + size - PGSIZE, pa;
      done := 0;
      MapStart(m, up, root, va, pa, perm);
      while true
        invariant Valid() && SameRoots(old(m), old(up), m, up) && Mapped(old(m), m, old(up), root, va, done, pa, perm)
        invariant SameFrames(old(m), old(free), m, free)
        invariant a == va + done * PGSIZE <= last && p == pa + done * PGSIZE
        decreases last - a
      {
        KeptRoot(old(m), old(up), m, up, root);
        ghost var m1, up1, free1 := m, up, free;
        var found, f, i := Walk(root, a, true);
        MapWalk(old(m), old(up), m1, up1, m, up, root, va, done, pa, perm);
        FramesTwice(old(m), old(free), m1, free1, m, free);
        if !found { return false, done; }
        KeptRoot(old(m), old(up), m, up, root);
        StoreStep(m, up, lvl, free, root, a, f, i, MapWord(p, perm));
        NotYet(old(m), m, old(up), root, va, done, pa, perm);
        if Sv39Model.Valid(m[f][i]) { assert false; }  // panic: remap
        MapStep(old(m), old(up), m, up, lvl, root, va, done, pa, perm, f, i);
        StoreFrames(m, f, i, MapWord(p, perm), free);
        FramesTwice(old(m), old(free), m, free, Store(m, f, i, MapWord(p, perm)), free);
        m := Store(m, f, i, MapWord(p, perm));
        done := done + 1;
        if a == last { return true, done; }
        a, p := a + PGSIZE, p + PGSIZE;
      }
    }

    /** kernel/vm.c:268-315, for pages that are mapped or swapped out: anything else panics.
        `dropped` is the entries cleared, whose frames and swap slots go back when asked for. */
    method UvmUnmap(root: nat, va: nat, npages: nat) returns (dropped: seq<nat>)
      requires Valid() && IsRoot(m, up, root) && va % PGSIZE == 0 && va + npages * PGSIZE <= MAXVA
      requires forall k: nat :: k < npages ==> Present(Look(m, root, va + k * PGSIZE))
      modifies this
      ensures Valid() && SameRoots(old(m), old(up), m, up) && Unmapped(old(m), m, old(up), root, va, npages)
      ensures free == old(free) && m.Keys == old(m).Keys
      ensures |dropped| == npages && forall k :: 0 <= k < npages ==> dropped[k] == Look(old(m), root, va + k * PGSIZE)
    {
      hide Inv, Look, Sv39Model.Walk, FreeOk, Unmapped, SameLooks, SameRoots, IsRoot, Present;
      var k: nat := 0;
      dropped := [];
      UnmapStart(m, up, root, va);
      while k < npages
        invariant k <= npages && Valid() && SameRoots(old(m), old(up), m, up)
        invariant Unmapped(old(m), m, old(up), root, va, k) && free == old(free) && m.Keys == old(m).Keys
        invariant |dropped| == k && forall j :: 0 <= j < k ==> dropped[j] == Look(old(m), root, va + j * PGSIZE)
      {
        var a := va + k * PGSIZE;
        KeptRoot(old(m), old(up), m, up, root);
        StillThere(old(m), m, old(up), root, va, k);
        var found, f, i := Walk(root, a, false);
        if !found { HasSlot(m, root, a); assert false; }  // panic: walk
        StoreStep(m, up, lvl, free, root, a, f, i, 0);
        UnmapStep(old(m), old(up), m, up, lvl, root, va, k, f, i);
        dropped := dropped + [m[f][i]];
        m := Store(m, f, i, 0);
        k := k + 1;
      }
    }

    /** freewalk of a whole page table (kernel/vm.c:444) leaves every other page table as it was. */
    method FreeRoot(root: nat) returns (ghost s: seq<nat>)
      requires Valid() && IsRoot(m, up, root) && Leafless(m, up, lvl, root)
      modifies this`m, this`free
      ensures Valid() && free == s + old(free) && Once(s)
      ensures forall g: nat :: g in s <==> g in old(m) && Under(up, root, g)
      ensures root !in m && OthersSame(old(m), m, up, root)
    {
      hide Inv, Leafless, Under, Once, Pruned, Look, FreeOk;
      WalkStart(m, up, lvl, root, 0);
      s := FreeWalk(root, m, 2);
      PrunedRoot(old(m), up, lvl, root, old(free), s);
    }

    /** kernel/vm.c:420-435 on a page table without leaves, which is all of `m0` under `f`: every
        table under `f` goes to the free list once, and no other table changes. */
    method FreeWalk(f: nat, ghost m0: map<nat, Table>, ghost level: nat) returns (ghost s: seq<nat>)
      requires Inv(m0, up, lvl) && f in m0 && f in lvl && lvl[f] == level && Leafless(m0, up, lvl, f)
      requires forall g: nat :: g in m0 && Under(up, f, g) ==> g in m && m[g] == m0[g]
      requires forall g: nat :: g in m ==> g in m0
      modifies this`m, this`free
      ensures m == Pruned(old(m), up, f) && free == s + old(free)
      ensures Once(s) && forall g: nat :: g in s <==> g in m0 && Under(up, f, g)
      decreases level
    {
      hide Inv, Leafless, Once, Freeing, Under, Branch, Pruned;
      s := [];
      var i: nat := 0;
      FreeStart(m0, m, up, lvl, f);
      while i < 512
        invariant i <= 512 && free == s + old(free) && Once(s) && f in m && |m[f]| == 512
        invariant Freeing(m0, old(m), m, up, f, i, s)
      {
        var pte := m[f][i];
        FreeEntry(m0, old(m), m, up, lvl, f, i, s, level);
        if Sv39Model.Valid(pte) && !Leaf(pte) {
          var child := Frame(pte);
          ghost var m1 := m;
          ghost var s1 := FreeWalk(child, m0, level - 1);
          FreeBack(m0, old(m), m1, m, up, lvl, f, i, s, level, s1);
          s := s1 + s;
          m := m[f := SetAt(m[f], i, 0)];
        } else if Sv39Model.Valid(pte) {
          assert false;  // panic: leaf
        }
        i := i + 1;
      }
      FreeDone(m0, old(m), m, up, lvl, f, s);
      m := m - {f};
      free := [f] + free;
      s := [f] + s;
    }
  }

  /** Frames on the free list are distinct and hold no table. */
  ghost predicate FreeOk(free: seq<nat>, m: map<nat, Table>) {
    && (forall k :: 0 <= k < |free| ==> free[k] !in m)
    && (forall j, k :: 0 <= j < k < |free| ==> free[j] != free[k])
  }

  lemma WalkStart(m: map<nat, Table>, up: map<nat, Up>, lvl: map<nat, nat>, r: nat, va: nat)
    requires Inv(m, up, lvl) && IsRoot(m, up, r)
    ensures r in lvl && lvl[r] == 2 && |m[r]| == 512 && Reaches(m, r, 2, va, r, 2)
  {
    assert TableOk(m, up, lvl, r);
  }

  lemma WalkStuck(m: map<nat, Table>, f: nat, level: nat, va: nat)
    requires f in m && |m[f]| == 512 && level > 0 && !Sv39Model.Valid(m[f][PX(level, va)])
    ensures Sv39Model.Walk(m, f, level, va) == NoSlot
  {
  }

  lemma WalkHere(m: map<nat, Table>, f: nat, va: nat)
    requires f in m && |m[f]| == 512
    ensures Sv39Model.Walk(m, f, 0, va) == Slot(f, PX(0, va))
  {
  }

  lemma Descend(m: map<nat, Table>, up: map<nat, Up>, lvl: map<nat, nat>, r: nat, va: nat, f: nat, level: nat)
    requires Inv(m, up, lvl) && f in m && f in lvl && lvl[f] == level && 0 < level && |m[f]| == 512
    requires Reaches(m, r, 2, va, f, level) && Sv39Model.Valid(m[f][PX(level, va)])
    ensures var c := Frame(m[f][PX(level, va)]);
      c in m && c in lvl && lvl[c] == level - 1 && |m[c]| == 512 && Reaches(m, r, 2, va, c, level - 1)
  {
    ReachesOn(m, r, 2, va, f, level);
    assert EntryOk(m, up, lvl, f, PX(level, va));
    assert TableOk(m, up, lvl, Frame(m[f][PX(level, va)]));
  }

  lemma Extend(m: map<nat, Table>, up: map<nat, Up>, lvl: map<nat, nat>, free: seq<nat>, r: nat, va: nat, f: nat,
          level: nat, c: nat)
    requires Inv(m, up, lvl) && IsRoot(m, up, r) && f in m && f in lvl && lvl[f] == level && 0 < level && |m[f]| == 512
    requires Reaches(m, r, 2, va, f, level) && !Sv39Model.Valid(m[f][PX(level, va)]) && FreeOk(free, m) && free != []
    requires c == free[0]
    ensures var n := AddTable(m, f, PX(level, va), c);
      && Inv(n, up[c := Entry(f, PX(level, va))], lvl[c := lvl[f] - 1]) && FreeOk(free[1..], n)
      && Reaches(n, r, 2, va, c, level - 1) && c in n && |n[c]| == 512 && IsRoot(n, up[c := Entry(f, PX(level, va))], r)
  {
    var i := PX(level, va);
    var n := AddTable(m, f, i, c);
    assert TableOk(m, up, lvl, r);
    AddTableInv(m, up, lvl, f, i, c);
    AddTableReaches(m, up, lvl, f, i, c, r, 2, va, f, level);
    TableWordIs(c);
    ReachesOn(n, r, 2, va, f, level);
  }

  lemma StillSame(m0: map<nat, Table>, up0: map<nat, Up>, m: map<nat, Table>, up: map<nat, Up>, lvl: map<nat, nat>,
          f: nat, i: nat, c: nat)
    requires Inv(m, up, lvl) && f in m && f in lvl && lvl[f] > 0 && i < 512 && |m[f]| == 512
    requires !Sv39Model.Valid(m[f][i]) && c !in m
    requires SameRoots(m0, up0, m, up) && SameLooks(m0, m, up0)
    ensures SameRoots(m0, up0, AddTable(m, f, i, c), up[c := Entry(f, i)]) && SameLooks(m0, AddTable(m, f, i, c), up0)
  {
    hide Inv, Sv39Model.Walk;
    var n, up' := AddTable(m, f, i, c), up[c := Entry(f, i)];
    forall s: nat ensures IsRoot(n, up', s) <==> IsRoot(m0, up0, s) { assert IsRoot(m, up, s) <==> IsRoot(m0, up0, s); }
    forall s: nat, vb: nat | IsRoot(m0, up0, s) && vb < MAXVA ensures Look(n, s, vb) == Look(m0, s, vb) {
      assert IsRoot(m, up, s);
      WalkStart(m, up, lvl, s, vb);
      AddTableLook(m, up, lvl, f, i, c, s, 2, vb);
      assert Look(m, s, vb) == Look(m0, s, vb);
    }
  }

  lemma MapStart(m: map<nat, Table>, up: map<nat, Up>, r: nat, va: nat, pa: nat, perm: nat)
    requires perm < 1024
    ensures Mapped(m, m, up, r, va, 0, pa, perm) && SameRoots(m, up, m, up)
  {
  }

  lemma KeptRoot(m: map<nat, Table>, up: map<nat, Up>, n: map<nat, Table>, up': map<nat, Up>, r: nat)
    requires SameRoots(m, up, n, up') && IsRoot(m, up, r)
    ensures IsRoot(n, up', r)
  {
  }

  lemma MapWalk(m0: map<nat, Table>, up0: map<nat, Up>, m1: map<nat, Table>, up1: map<nat, Up>, m: map<nat, Table>,
          up: map<nat, Up>, r: nat, va: nat, k: nat, pa: nat, perm: nat)
    requires perm < 1024 && Mapped(m0, m1, up0, r, va, k, pa, perm) && SameRoots(m0, up0, m1, up1)
    requires SameLooks(m1, m, up1) && SameRoots(m1, up1, m, up)
    ensures Mapped(m0, m, up0, r, va, k, pa, perm) && SameRoots(m0, up0, m, up)
  {
    hide Look, MapWord, IsRoot;
    forall s: nat ensures IsRoot(m, up, s) <==> IsRoot(m0, up0, s) {
      assert IsRoot(m1, up1, s) <==> IsRoot(m0, up0, s);
    }
    forall s: nat, vb: nat | IsRoot(m0, up0, s) && vb < MAXVA ensures Look(m, s, vb) == Look(m1, s, vb) {
      assert IsRoot(m1, up1, s);
    }
  }

  lemma StoreStep(m: map<nat, Table>, up: map<nat, Up>, lvl: map<nat, nat>, free: seq<nat>, r: nat, va: nat,
          f: nat, i: nat, w: nat)
    requires Inv(m, up, lvl) && FreeOk(free, m) && IsRoot(m, up, r) && va < MAXVA
    requires Sv39Model.Walk(m, r, 2, va) == Slot(f, i)
    ensures f in m && i < |m[f]| && Inv(Store(m, f, i, w), up, lvl) && FreeOk(free, Store(m, f, i, w))
    ensures m[f][i] == Look(m, r, va)
    ensures forall s: nat {:trigger IsRoot(Store(m, f, i, w), up, s)} :: IsRoot(Store(m, f, i, w), up, s) <==>
      IsRoot(m, up, s)
  {
    hide Inv;
    WalkStart(m, up, lvl, r, va);
    WalkEnds(m, up, lvl, r, 2, va);
    StoreInv(m, up, lvl, f, i, w);
  }

  lemma MapStep(m0: map<nat, Table>, up0: map<nat, Up>, m: map<nat, Table>, up: map<nat, Up>, lvl: map<nat, nat>,
          r: nat, va: nat, k: nat, pa: nat, perm: nat, f: nat, i: nat)
    requires perm < 1024 && Mapped(m0, m, up0, r, va, k, pa, perm) && SameRoots(m0, up0, m, up) && Inv(m, up, lvl)
    requires IsRoot(m0, up0, r)
    requires va % PGSIZE == 0 && va + k * PGSIZE < MAXVA && Sv39Model.Walk(m, r, 2, va + k * PGSIZE) == Slot(f, i)
    ensures f in m && i < |m[f]|
    ensures Mapped(m0, Store(m, f, i, MapWord(pa + k * PGSIZE, perm)), up0, r, va, k + 1, pa, perm)
    ensures SameRoots(m0, up0, Store(m, f, i, MapWord(pa + k * PGSIZE, perm)), up)
  {
    hide Inv, Look, Sv39Model.Walk, MapWord;
    var a, w := va + k * PGSIZE, MapWord(pa + k * PGSIZE, perm);
    assert IsRoot(m, up, r);
    StoreLook(m, up, lvl, r, a, w, r, a);
    var n := Store(m, f, i, w);
    assert a / PGSIZE == va / PGSIZE + k;
    forall s: nat, vb: nat | IsRoot(m0, up0, s) && vb < MAXVA
      ensures Look(n, s, vb) == if s == r && vb / PGSIZE == a / PGSIZE then w else Look(m, s, vb)
    {
      assert IsRoot(m, up, s);
      StoreLook(m, up, lvl, r, a, w, s, vb);
    }
    forall s: nat ensures IsRoot(n, up, s) <==> IsRoot(m0, up0, s) { assert IsRoot(m, up, s) <==> IsRoot(m0, up0, s); }
  }

  lemma NotYet(m0: map<nat, Table>, m: map<nat, Table>, up0: map<nat, Up>, r: nat, va: nat, k: nat, pa: nat, perm: nat)
    requires perm < 1024 && Mapped(m0, m, up0, r, va, k, pa, perm) && IsRoot(m0, up0, r) && va % PGSIZE == 0
    requires va + k * PGSIZE < MAXVA
    ensures Look(m, r, va + k * PGSIZE) == Look(m0, r, va + k * PGSIZE)
  {
    hide Look, MapWord, IsRoot;
    assert (va + k * PGSIZE) / PGSIZE == va / PGSIZE + k;
  }

  lemma UnmapStart(m: map<nat, Table>, up: map<nat, Up>, r: nat, va: nat)
    ensures Unmapped(m, m, up, r, va, 0) && SameRoots(m, up, m, up)
  {
  }

  lemma StillThere(m0: map<nat, Table>, m: map<nat, Table>, up0: map<nat, Up>, r: nat, va: nat, k: nat)
    requires Unmapped(m0, m, up0, r, va, k) && IsRoot(m0, up0, r) && va % PGSIZE == 0 && va + k * PGSIZE < MAXVA
    ensures Look(m, r, va + k * PGSIZE) == Look(m0, r, va + k * PGSIZE)
  {
    hide Look, IsRoot;
    assert (va + k * PGSIZE) / PGSIZE == va / PGSIZE + k;
  }

  lemma HasSlot(m: map<nat, Table>, r: nat, va: nat)
    requires Present(Look(m, r, va))
    ensures Sv39Model.Walk(m, r, 2, va).Slot?
  {
  }

  lemma UnmapStep(m0: map<nat, Table>, up0: map<nat, Up>, m: map<nat, Table>, up: map<nat, Up>, lvl: map<nat, nat>,
          r: nat, va: nat, k: nat, f: nat, i: nat)
    requires Unmapped(m0, m, up0, r, va, k) && SameRoots(m0, up0, m, up) && Inv(m, up, lvl) && IsRoot(m0, up0, r)
    requires va % PGSIZE == 0 && va + k * PGSIZE < MAXVA && Sv39Model.Walk(m, r, 2, va + k * PGSIZE) == Slot(f, i)
    ensures f in m && i < |m[f]| && Unmapped(m0, Store(m, f, i, 0), up0, r, va, k + 1)
    ensures SameRoots(m0, up0, Store(m, f, i, 0), up)
  {
    hide Inv, Look, Sv39Model.Walk;
    var a := va + k * PGSIZE;
    assert IsRoot(m, up, r);
    StoreLook(m, up, lvl, r, a, 0, r, a);
    var n := Store(m, f, i, 0);
    assert a / PGSIZE == va / PGSIZE + k;
    forall s: nat, vb: nat | IsRoot(m0, up0, s) && vb < MAXVA
      ensures Look(n, s, vb) == if s == r && vb / PGSIZE == a / PGSIZE then 0 else Look(m, s, vb)
    {
      assert IsRoot(m, up, s);
      StoreLook(m, up, lvl, r, a, 0, s, vb);
    }
    forall s: nat ensures IsRoot(n, up, s) <==> IsRoot(m0, up0, s) { assert IsRoot(m, up, s) <==> IsRoot(m0, up0, s); }
  }

  /** freewalk of `f` has dealt with the first `i` entries: the tables below them are gone from
      `was` and on the list `s`, and nothing else changed but those entries. */
  ghost predicate Freeing(m0: map<nat, Table>, was: map<nat, Table>, m: map<nat, Table>, up: map<nat, Up>, f: nat,
          i: nat, s: seq<nat>) {
    && f in m0 && f in m && |m[f]| == 512 == |m0[f]|
    && (forall j {:trigger m[f][j]} :: i <= j < 512 ==> m[f][j] == m0[f][j])
    && (forall g: nat {:trigger g in m} :: g in m && g != f ==> g in was && m[g] == was[g])
    && (forall g: nat {:trigger g in m} :: g in was && g != f ==> (g in m <==> !(0 <= Branch(up, f, g) < i)))
    && (forall g: nat {:trigger g in s} :: g in s <==> g in m0 && 0 <= Branch(up, f, g) < i)
    && (forall g: nat {:trigger g in was} :: g in m0 && Under(up, f, g) ==> g in was && was[g] == m0[g])
    && (forall g: nat {:trigger g in was} :: g in was ==> g in m0)
  }

  lemma FreeStart(m0: map<nat, Table>, m: map<nat, Table>, up: map<nat, Up>, lvl: map<nat, nat>, f: nat)
    requires Inv(m0, up, lvl) && f in m0
    requires forall g: nat :: g in m0 && Under(up, f, g) ==> g in m && m[g] == m0[g]
    requires forall g: nat :: g in m ==> g in m0
    ensures f in m && |m[f]| == 512 && Freeing(m0, m, m, up, f, 0, []) && Once([])
  {
    hide Branch;
    assert TableOk(m0, up, lvl, f);
    assert Under(up, f, f);
  }

  /** What freewalk meets at entry `i`: nothing, or a table it can free. */
  lemma FreeEntry(m0: map<nat, Table>, was: map<nat, Table>, m: map<nat, Table>, up: map<nat, Up>, lvl: map<nat,
          nat>, f: nat, i: nat, s: seq<nat>, level: nat)
    requires Inv(m0, up, lvl) && f in lvl && lvl[f] == level && i < 512 && Freeing(m0, was, m, up, f, i, s)
    requires Leafless(m0, up, lvl, f)
    ensures Sv39Model.Valid(m[f][i]) ==> level > 0 && !Leaf(m[f][i])
    ensures !Sv39Model.Valid(m[f][i]) ==> Freeing(m0, was, m, up, f, i + 1, s)
    ensures Sv39Model.Valid(m[f][i]) ==> var c := Frame(m[f][i]);
      && c in m0 && c in lvl && lvl[c] == level - 1 && Leafless(m0, up, lvl, c)
      && (forall g: nat :: g in m0 && Under(up, c, g) ==> g in m && m[g] == m0[g])
      && (forall g: nat :: g in m ==> g in m0)
  {
    hide Branch, Inv, Leafless;
    Below(m0, up, lvl, f, i, level);
    if Sv39Model.Valid(m[f][i]) {
      var c := Frame(m[f][i]);
      forall g: nat | g in m0 && Under(up, c, g) ensures g in m && m[g] == m0[g] {
        assert Branch(up, f, g) == i;
        assert g in was;
      }
    }
  }

  lemma FreeBack(m0: map<nat, Table>, was: map<nat, Table>, m: map<nat, Table>, n: map<nat, Table>, up: map<nat,
          Up>, lvl: map<nat, nat>, f: nat, i: nat, s: seq<nat>, level: nat, t: seq<nat>)
    requires Inv(m0, up, lvl) && f in lvl && lvl[f] == level && i < 512 && Freeing(m0, was, m, up, f, i, s)
    requires Leafless(m0, up, lvl, f)
    requires Sv39Model.Valid(m[f][i]) && n == Pruned(m, up, Frame(m[f][i])) && Once(s) && Once(t)
    requires forall g: nat :: g in t <==> g in m0 && Under(up, Frame(m[f][i]), g)
    ensures f in n && |n[f]| == 512 && Freeing(m0, was, n[f := SetAt(n[f], i, 0)], up, f, i + 1, t + s) && Once(t + s)
  {
    hide Branch, Inv, Leafless, Once;
    Below(m0, up, lvl, f, i, level);
    var c := Frame(m[f][i]);
    assert !Under(up, c, f) by { assert Branch(up, f, f) == -1; }
    forall g: nat | g in t ensures g !in s { assert Branch(up, f, g) == i; }
    OnceMore(t, s);
    var k := n[f := SetAt(n[f], i, 0)];
    forall g: nat | g in was && g != f ensures g in k <==> !(0 <= Branch(up, f, g) < i + 1) {
      assert g in m0;
      assert g in m <==> !(0 <= Branch(up, f, g) < i);
      assert Under(up, c, g) <==> Branch(up, f, g) == i;
    }
    forall g: nat ensures g in t + s <==> g in m0 && 0 <= Branch(up, f, g) < i + 1 {
      assert g in t + s <==> g in t || g in s;
      assert g in m0 ==> (Under(up, c, g) <==> Branch(up, f, g) == i);
    }
  }

  lemma FreeDone(m0: map<nat, Table>, was: map<nat, Table>, m: map<nat, Table>, up: map<nat, Up>, lvl: map<nat,
          nat>, f: nat, s: seq<nat>)
    requires Inv(m0, up, lvl) && f in m0 && Freeing(m0, was, m, up, f, 512, s) && Once(s)
    ensures m - {f} == Pruned(was, up, f) && Once([f] + s)
    ensures forall g: nat :: g in [f] + s <==> g in m0 && Under(up, f, g)
  {
    hide Branch, Inv, Once;
    AllBelow(m0, up, lvl, f);
    OnceMore([f], s);
    forall g: nat ensures g in m - {f} <==> g in Pruned(was, up, f) {
      assert g in was ==> g in m0;
      assert g in m && g != f ==> g in was;
    }
    forall g: nat ensures g in [f] + s <==> g in m0 && Under(up, f, g) { assert g in [f] + s <==> g == f || g in s; }
  }

  lemma OnceMore(s: seq<nat>, t: seq<nat>)
    requires Once(s) && Once(t) && forall x: nat :: x in s ==> x !in t
    ensures Once(s + t)
  {
    forall j, k | 0 <= j < k < |s + t| ensures (s + t)[j] != (s + t)[k] {
      if j < |s| <= k { assert s[j] in s && t[k - |s|] in t; }
    }
  }

  /** Entry `i` of a table of a leafless page table: not valid with nothing below, or a table. */
  lemma Below(m: map<nat, Table>, up: map<nat, Up>, lvl: map<nat, nat>, f: nat, i: nat, level: nat)
    requires Inv(m, up, lvl) && f in m && f in lvl && lvl[f] == level && Leafless(m, up, lvl, f) && i < 512
    ensures |m[f]| == 512 && Branch(up, f, f) == -1
    ensures !Sv39Model.Valid(m[f][i]) ==> forall g: nat {:trigger Branch(up, f, g)} :: g in m ==> Branch(up, f, g) != i
    ensures Sv39Model.Valid(m[f][i]) ==> level > 0 && !Leaf(m[f][i])
    ensures Sv39Model.Valid(m[f][i]) ==> var c := Frame(m[f][i]);
      c in m && c in lvl && lvl[c] == level - 1 && Leafless(m, up, lvl, c) && c != f
    ensures Sv39Model.Valid(m[f][i]) ==> var c := Frame(m[f][i]);
      forall g: nat {:trigger Branch(up, f, g)} {:trigger Under(up, c, g)} :: g in m ==>
        (Under(up, c, g) <==> Branch(up, f, g) == i)
  {
    assert TableOk(m, up, lvl, f) && EntryOk(m, up, lvl, f, i);
    if up[f].Entry? { assert TableOk(m, up, lvl, up[f].parent); }
    if !Sv39Model.Valid(m[f][i]) {
      forall g: nat | g in m ensures Branch(up, f, g) != i { NothingBelow(m, up, lvl, f, i, g); }
    } else {
      assert Under(up, f, f);
      var c := Frame(m[f][i]);
      TableWordIs(c);
      forall g: nat | g in m ensures Under(up, c, g) <==> Branch(up, f, g) == i { BranchIs(m, up, lvl, f, i, c, g); }
      LeaflessChild(m, up, lvl, f, i, c);
    }
  }

  lemma LeaflessChild(m: map<nat, Table>, up: map<nat, Up>, lvl: map<nat, nat>, f: nat, i: nat, c: nat)
    requires Leafless(m, up, lvl, f)
    requires forall g: nat {:trigger Under(up, c, g)} :: g in m ==> (Under(up, c, g) <==> Branch(up, f, g) == i)
    ensures Leafless(m, up, lvl, c)
  {
    hide Branch;
    forall g, j | g in m && Under(up, c, g) && g in lvl && lvl[g] == 0 && 0 <= j < |m[g]|
      ensures !Sv39Model.Valid(m[g][j])
    {
      assert Under(up, f, g);
    }
  }

  lemma AllBelow(m: map<nat, Table>, up: map<nat, Up>, lvl: map<nat, nat>, f: nat)
    requires Inv(m, up, lvl) && f in m
    ensures forall g: nat {:trigger Branch(up, f, g)} :: g in m ==> Branch(up, f, g) < 512
    ensures Branch(up, f, f) == -1
    ensures Once([f])
  {
    assert TableOk(m, up, lvl, f);
    if up[f].Entry? { assert TableOk(m, up, lvl, up[f].parent); }
    forall g: nat | g in m ensures Branch(up, f, g) < 512 {
      assert TableOk(m, up, lvl, g);
      if up[g].Entry? { assert TableOk(m, up, lvl, up[g].parent); }
    }
  }

  lemma PrunedRoot(m: map<nat, Table>, up: map<nat, Up>, lvl: map<nat, nat>, root: nat, free: seq<nat>, s: seq<nat>)
    requires Inv(m, up, lvl) && IsRoot(m, up, root) && FreeOk(free, m) && Once(s)
    requires forall g: nat :: g in s <==> g in m && Under(up, root, g)
    ensures var n := Pruned(m, up, root);
      && Inv(n, up, lvl) && FreeOk(s + free, n) && root !in n
      && OthersSame(m, n, up, root)
  {
    hide Inv, Sv39Model.Walk;
    var n := Pruned(m, up, root);
    PrunedInv(m, up, lvl, root);
    forall r: nat | IsRoot(m, up, r) && r != root ensures IsRoot(n, up, r) {}
    forall r: nat, va: nat {:trigger Look(n, r, va)} | IsRoot(m, up, r) && r != root && va < MAXVA
      ensures Look(n, r, va) == Look(m, r, va)
    {
      WalkStart(m, up, lvl, r, va);
      PrunedWalk(m, up, lvl, root, r, 2, va);
    }
    forall k | 0 <= k < |s + free| ensures (s + free)[k] !in n { if k < |s| { assert s[k] in s; } }
    forall j, k | 0 <= j < k < |s + free| ensures (s + free)[j] != (s + free)[k]
      { if j < |s| <= k { assert s[j] in s && free[k - |s|] !in m; } }
  }

  lemma NewRoot(m: map<nat, Table>, up: map<nat, Up>, lvl: map<nat, nat>, free: seq<nat>)
    requires Inv(m, up, lvl) && FreeOk(free, m) && free != []
    ensures var c := free[0]; var n, up', lvl' := m[c := NewTable()], up[c := Root], lvl[c := 2];
      && Inv(n, up', lvl') && FreeOk(free[1..], n) && !IsRoot(m, up, c) && IsRoot(n, up', c)
      && (forall va: nat :: va < MAXVA ==> Look(n, c, va) == 0) && OthersSame(m, n, up, c) && forall r: nat ::
        IsRoot(m, up, r) ==> IsRoot(n, up', r)
  {
    var c := free[0];
    var n, up', lvl' := m[c := NewTable()], up[c := Root], lvl[c := 2];
    forall g: nat ensures TableOk(n, up', lvl', g) { assert TableOk(m, up, lvl, g); }
    forall g: nat, i: nat ensures EntryOk(n, up', lvl', g, i) { assert EntryOk(m, up, lvl, g, i); }
    forall r: nat | IsRoot(m, up, r) ensures IsRoot(n, up, r) {}
    forall r: nat, va: nat {:trigger Look(n, r, va)} | IsRoot(m, up, r) && r != c && va < MAXVA
      ensures Look(n, r, va) == Look(m, r, va)
    {
      WalkStart(m, up, lvl, r, va);
      SameWalk(m, up, lvl, c, r, 2, va);
    }
  }

  lemma {:induction false} SameWalk(m: map<nat, Table>, up: map<nat, Up>, lvl: map<nat, nat>, c: nat, f: nat,
          level: nat, va: nat)
    requires Inv(m, up, lvl) && c !in m && f in m && f in lvl && lvl[f] == level
    ensures var n := m[c := NewTable()];
      At(n, Sv39Model.Walk(n, f, level, va)) == At(m, Sv39Model.Walk(m, f, level, va))
    decreases level
  {
    assert TableOk(m, up, lvl, f);
    if level > 0 && Sv39Model.Valid(m[f][PX(level, va)]) {
      assert EntryOk(m, up, lvl, f, PX(level, va));
      SameWalk(m, up, lvl, c, Frame(m[f][PX(level, va)]), level - 1, va);
    }
  }
}
