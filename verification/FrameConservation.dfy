/** No operation of kernel/vm.c or kernel/kalloc.c makes a frame appear or disappear. */
module FrameConservation {
  import opened RiscV
  import opened SwapModel
  import opened SwapOps
  import opened UserMemory
  import opened Fork
  import opened Teardown

  lemma KfreeFrames(s: State, f: nat)
    requires Inv(s) && Held(s, f)
    ensures Kfree(s, f).mem.Keys == s.mem.Keys
  {
  }

  lemma SwapOutFrames(s: State)
    requires Inv(s)
    ensures SwapOut(s).s.mem.Keys == s.mem.Keys
  {
    if s.ring != [] {
      var t := Scan(s);
      assert t.ring[0] in t.ring;
    }
  }

  lemma SwapInFrames(s: State, k: Key)
    requires Inv(s)
    ensures SwapIn(s, k).s.mem.Keys == s.mem.Keys
  {
    KallocKeepsFrames(s);
    if k in s.ptes && s.ptes[k].swapped { KallocKeepsSwapped(s, k); }
  }

  lemma EnsureFrames(s: State, t: TKey)
    requires Inv(s) && (t in s.tables || Hangs(s, t, 0)) && t.level < 2
    ensures Ensure(s, t).s.mem.Keys == s.mem.Keys
  {
    KallocKeepsFrames(s);
  }

  lemma WalkFrames(s: State, k: Key)
    requires Inv(s) && Root(k.root) in s.tables
    ensures Walk(s, k).s.mem.Keys == s.mem.Keys
  {
    WalkQuiet(s, k);
    EnsureFrames(s, Mid(k));
    var m := Ensure(s, Mid(k));
    if m.ok { EnsureFrames(m.s, Low(k)); }
  }

  lemma InstallFrames(s: State, k: Key, p: Pte, data: Page)
    requires Inv(s) && Held(s, p.ppn) && k !in s.ptes && p.v && !p.swapped && Root(k.root) in s.tables
    ensures Install(s, k, p, data).s.mem.Keys == s.mem.Keys
  {
    var z := Fill(s, p.ppn, data);
    WalkFrames(z, k);
    var w := Walk(z, k);
    assert p.ppn in Outs(w.s);
    KfreeFrames(w.s, p.ppn);
  }

  lemma AllocPageFrames(s: State, k: Key, w: bool, x: bool)
    requires Inv(s) && k !in Memory(s) && Root(k.root) in s.tables
    ensures AllocPage(s, k, w, x).s.mem.Keys == s.mem.Keys
  {
    KallocKeepsFrames(s);
    var a := Kalloc(s);
    MemoryKeys(a.s);
    if a.ok { InstallFrames(a.s, k, UserPte(a.frame, w, x), Filled(0)); }
  }

  lemma UnmapPageFrames(s: State, k: Key)
    requires Inv(s) && k in Memory(s)
    ensures UnmapPage(s, k).mem.Keys == s.mem.Keys
  {
    hide BackOk, TablesOk, TreeOk, Unshared, SlotsOk, SwapArea, WalksOk;
    MemoryKeys(s);
    if s.ptes[k].v {
      UnmapListedInv(s, k);
      KfreeFrames(UnmapListed(s, k), s.ptes[k].ppn);
    }
  }

  lemma {:induction false} UvmUnmapFrames(s: State, root: nat, a: nat, b: nat)
    requires Inv(s) && Range(root, a, b) <= Memory(s).Keys
    ensures UvmUnmap(s, root, a, b).mem.Keys == s.mem.Keys
    decreases b - a
  {
    hide Inv, Memory, UnmapPage, Range;
    if a < b {
      LessRange(Memory(s), root, a, b);
      UnmapPageFrames(s, Key(root, a));
      UvmUnmapFrames(UnmapPage(s, Key(root, a)), root, a + 1, b);
    }
  }

  lemma {:induction false} UvmAllocFrames(s: State, root: nat, start: nat, a: nat, b: nat, w: bool, x: bool)
    requires Inv(s) && Root(root) in s.tables && start <= a
    requires Range(root, start, a) <= Memory(s).Keys && Range(root, a, b) !! Memory(s).Keys
    ensures UvmAlloc(s, root, start, a, b, w, x).s.mem.Keys == s.mem.Keys
    decreases b - a
  {
    hide Inv, Memory, UnmapPage, AllocPage, Range, Zeros;
    if a < b {
      MoreZeros(Memory(s), root, start, a, b, w, x);
      AllocPageFrames(s, Key(root, a), w, x);
      var d := AllocPage(s, Key(root, a), w, x);
      if d.ok { UvmAllocFrames(d.s, root, start, a + 1, b, w, x); } else { UvmUnmapFrames(d.s, root, start, a); }
    }
  }

  lemma CopyPageFrames(s: State, from: Key, to: Key)
    requires Inv(s) && from in Memory(s) && to !in Memory(s) && Root(to.root) in s.tables
    ensures CopyPage(s, from, to).s.mem.Keys == s.mem.Keys
  {
    KallocKeepsFrames(s);
    var a, src := Kalloc(s), s.ptes[from];
    MemoryKeys(s);
    MemoryKeys(a.s);
    if a.ok { InstallFrames(a.s, to, src.(ppn := a.frame, v := true, swapped := false), CopyData(a.s, src)); }
  }

  lemma {:induction false} UvmCopyFrames(s: State, parent: nat, child: nat, i: nat, n: nat)
    requires CanCopy(s, parent, child, i, n)
    ensures UvmCopy(s, parent, child, i, n).s.mem.Keys == s.mem.Keys
    decreases n - i
  {
    hide Inv, Memory, UnmapPage, CopyPage, Range, Copies, Spoils;
    if i < n {
      MoreCopies(Memory(s), parent, child, i, n, Spoils(s, Key(parent, i)), {});
      CopyPageFrames(s, Key(parent, i), Key(child, i));
      var d := CopyPage(s, Key(parent, i), Key(child, i));
      if d.ok { UvmCopyFrames(d.s, parent, child, i + 1, n); } else { UvmUnmapFrames(d.s, child, 0, i); }
    }
  }

  lemma UvmFreeFrames(s: State, root: nat, n: nat)
    requires CanFree(s, root, n)
    ensures UvmFree(s, root, n).mem.Keys == s.mem.Keys
  {
    hide Inv, Memory, UvmUnmap, FreeWalk, Range, Outs;
    UvmUnmapFrames(s, root, 0, n);
  }
}
