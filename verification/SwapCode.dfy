/** The code of kernel/vm.c and kernel/kalloc.c that pages user memory, on the kernel's own
    structures: the linked ring, the slot bitmap and the blocks of the swap area. */
module SwapCode {
  import opened RiscV
  import opened SwapModel
  import Ops = SwapOps
  import User = UserMemory
  import Fork
  import Teardown
  import Bitmap
  import opened Params
  import opened LruRing

  type Block = b: seq<bv8> | |b| == 1024 witness seq(1024, _ => 0)

  /** The first disk block of a slot. */
  function SlotBlock(slot: nat): nat { SWAPBASE + 4 * slot }

  /** The page held in the four blocks of a slot. */
  function SlotPage(disk: seq<Block>, slot: nat): Page
    requires |disk| == FSSIZE && slot < NSLOTS
  {
    var b := SlotBlock(slot);
    var p: seq<bv8> := disk[b];
    p + disk[b + 1] + disk[b + 2] + disk[b + 3]
  }

  ghost predicate DiskOk(disk: seq<Block>, swap: map<nat, Page>) {
    && |disk| == FSSIZE
    && forall i {:trigger SlotPage(disk, i)} :: 0 <= i < NSLOTS ==> i in swap && swap[i] == SlotPage(disk, i)
  }

  function Part(p: Page, i: nat): Block
    requires i < 4
  {
    p[i * 1024..i * 1024 + 1024]
  }

  lemma PartsMakePage(p: Page)
    ensures Part(p, 0) + Part(p, 1) + Part(p, 2) + Part(p, 3) == p
  {}

  function Frames(first: nat, last: nat): (r: set<nat>)
    requires first <= last
    ensures forall f {:trigger f in r} :: f in r <==> first <= f < last
  {
    if first == last then {} else Frames(first, last - 1) + {last - 1}
  }

  /** A list counting down from `last - 1` to `first` holds each number between once. */
  lemma Descending(q: seq<nat>, first: nat, last: nat)
    requires first <= last && |q| == last - first && forall i :: 0 <= i < |q| ==> q[i] == last - 1 - i
    ensures Distinct(q) && forall f {:trigger f in q} :: f in q <==> f in Frames(first, last)
  {
    forall f | f in Frames(first, last) ensures f in q {
      assert q[last - 1 - f] == f;
    }
  }

  function SwapPages(disk: seq<Block>): (swap: map<nat, Page>)
    requires |disk| == FSSIZE
    ensures DiskOk(disk, swap) && SwapArea(swap)
  {
    map i: nat | i < NSLOTS :: SlotPage(disk, i)
  }

  lemma ZeroMap(m: seq<bv8>)
    requires |m| == 4096 && forall i :: 0 <= i < 4096 ==> m[i] == 0
    ensures Bitmap.Shows(m, NSLOTS, {})
  {}

  /** Frames, kmem.freelist, the pages[] back-pointers and the page tables, whose leaf entries
      are the words the code stores. */
  datatype Kernel = Kernel(mem: map<nat, Page>, free: seq<nat>, back: map<nat, Key>,
                           tables: map<TKey, nat>, ptes: map<Key, nat>)

  /** The words in the tables are the entries of the model. */
  ghost predicate Encodes(words: map<Key, nat>, ptes: map<Key, Pte>) {
    && words.Keys == ptes.Keys
    && forall key {:trigger key in ptes} {:trigger key in words} :: key in ptes ==> Decode(words[key]) == ptes[key]
  }

  ghost predicate Pictures(k: Kernel, v: State) {
    && k.mem == v.mem && k.free == v.free && k.back == v.back && k.tables == v.tables
    && Encodes(k.ptes, v.ptes)
  }

  lemma EncodesPut(words: map<Key, nat>, ptes: map<Key, Pte>, key: Key, word: nat)
    requires Encodes(words, ptes)
    ensures Encodes(words[key := word], ptes[key := Decode(word)])
  {
    hide Decode;
  }

  lemma EncodesKeys(words: map<Key, nat>, ptes: map<Key, Pte>)
    requires Encodes(words, ptes)
    ensures words.Keys == ptes.Keys
  {}

  lemma EncodesDrop(words: map<Key, nat>, ptes: map<Key, Pte>, key: Key)
    requires Encodes(words, ptes)
    ensures Encodes(words - {key}, ptes - {key})
  {
    hide Decode;
  }

  /** What the code reads out of a stored word is what the model's entry says. */
  lemma EncodesRead(words: map<Key, nat>, ptes: map<Key, Pte>, key: Key)
    requires Encodes(words, ptes) && key in ptes
    ensures key in words && Decode(words[key]) == ptes[key]
    ensures Bit(words[key], V) == ptes[key].v && Bit(words[key], A) == ptes[key].a
    ensures Bit(words[key], SWAPPED) == ptes[key].swapped && PTE2PA(words[key]) / PGSIZE == ptes[key].ppn
  {
    hide Decode;
    DecodeReads(words[key]);
  }

  /** The entry that mappages makes for frame `f`. */
  function MapPte(f: nat, perm: nat): Pte { Decode(MapWord(f * PGSIZE, perm)) }

  /** uvmalloc's word is a readable, user-accessible entry with the permissions asked for. */
  lemma UserWordDecodes(f: nat, w: bool, x: bool)
    ensures UserFlags(w, x) < Pow2(10) && !Bit(UserFlags(w, x), SWAPPED)
    ensures MapPte(f, UserFlags(w, x)) == User.UserPte(f, w, x)
  {
    hide Bit, MapWord, UserFlags;
    forall j | 0 <= j < 10
      ensures UserFlags(w, x) < Pow2(10)
      ensures Bit(UserFlags(w, x), j) == (j == 1 || j == 4 || (j == 2 && w) || (j == 3 && x))
    {
      UserFlagsBit(w, x, j);
    }
    UserFlagsBit(w, x, 0);
    assert f * PGSIZE % PGSIZE == 0 && f * PGSIZE / PGSIZE == f;
    MapWordDecodes(f * PGSIZE, UserFlags(w, x));
  }

  /** uvmcopy's word is the parent's entry, present in the new frame. */
  lemma CopyPteIs(word: nat, f: nat)
    requires Bit(word, V) != Bit(word, SWAPPED)
    ensures CopyFlags(word) < Pow2(10) && !Bit(CopyFlags(word), SWAPPED)
    ensures MapPte(f, CopyFlags(word)) == Decode(word).(ppn := f, v := true, swapped := false)
  {
    hide Bit, MapWord, CopyFlags, Decode;
    assert f * PGSIZE % PGSIZE == 0 && f * PGSIZE / PGSIZE == f;
    CopyWordDecodes(word, f * PGSIZE);
  }

  const TOPLEVEL: nat := 256  // entries of a root table that addresses below MAXVA use

  /** walk panics past MAXVA, so tables hang only off the entries of a root below it. */
  ghost predicate Bounded(tables: map<TKey, nat>) {
    forall t {:trigger t in tables} :: t in tables && t.level == 1 ==> t.prefix < TOPLEVEL
  }

  lemma MidBounded(key: Key)
    ensures key.vpn < MAXVA / PGSIZE <==> Mid(key).prefix < TOPLEVEL
  {}

  /** A mapped page lies below MAXVA. */
  lemma PageBounded(s: State, key: Key)
    requires Inv(s) && Bounded(s.tables) && key in Memory(s)
    ensures key.vpn < MAXVA / PGSIZE
  {
    hide Lists, BackOk, TablesOk, TreeOk, PtesOk, Unshared, SlotsOk, SwapArea;
    assert Walks(s.tables, key);
    MidBounded(key);
  }

  /** The page at the clock hand is present. */
  lemma HeadPresent(s: State)
    requires Inv(s) && s.ring != []
    ensures s.ring[0] in s.back && s.back[s.ring[0]] in s.ptes && s.ptes[s.back[s.ring[0]]].v
    ensures s.ring[0] in s.mem && s.ring[0] in s.role && Distinct(s.ring)
  {
    assert s.ring[0] in s.ring;
  }

  lemma HeldOffRing(s: State, f: nat)
    requires Inv(s) && Held(s, f)
    ensures f !in s.ring && f in s.mem
  {}

  lemma SlotInUse(s: State, key: Key)
    requires Inv(s) && key in s.ptes && s.ptes[key].swapped
    ensures s.ptes[key].ppn < NSLOTS && s.ptes[key].ppn in s.swap
  {
    assert SlotHeld(s.owner, s.ptes, s.ptes[key].ppn);
  }

  lemma SlotLoads(disk: seq<Block>, swap: map<nat, Page>, slot: nat)
    requires DiskOk(disk, swap) && slot < NSLOTS
    ensures |disk| == FSSIZE && SlotPage(disk, slot) == Load(swap, slot)
  {}

  lemma PresentFrame(s: State, key: Key)
    requires Inv(s) && key in s.ptes && s.ptes[key].v
    ensures s.ptes[key].ppn in s.role
  {}

  lemma UnmapSwappedReady(s: State, key: Key)
    requires Inv(s) && key in s.ptes && !s.ptes[key].v
    ensures s.ptes[key].swapped && s.ptes[key].ppn < NSLOTS && Inv(UnmapSwapped(s, key))
  {
    SlotInUse(s, key);
    UnmapSwappedInv(s, key);
  }

  /** PGROUNDUP(sz) / PGSIZE */
  function Pages(sz: nat): nat { (sz + PGSIZE - 1) / PGSIZE }

  lemma RangeEmpty(root: nat, p: nat)
    ensures User.Range(root, p, p) == {}
  {}

  lemma PageBelow(p: nat, sz: nat)
    ensures p * PGSIZE < sz <==> p < Pages(sz)
    ensures p * PGSIZE / PGSIZE == p && Pages(p * PGSIZE) == p
  {}

  lemma SourceHome(s: State, key: Key)
    requires Inv(s) && key in s.ptes
    ensures s.ptes[key].v ==> s.ptes[key].ppn in s.mem
    ensures !s.ptes[key].v ==> s.ptes[key].ppn < NSLOTS
  {
    if !s.ptes[key].v { SlotInUse(s, key); }
  }

  /** Writing one slot's blocks changes that slot and no other. */
  lemma SlotWritten(was: seq<Block>, now: seq<Block>, swap: map<nat, Page>, slot: nat)
    requires DiskOk(was, swap) && |now| == FSSIZE && slot < NSLOTS
    requires forall b :: 0 <= b < FSSIZE && !(SlotBlock(slot) <= b < SlotBlock(slot) + 4) ==> now[b] == was[b]
    ensures DiskOk(now, swap[slot := SlotPage(now, slot)])
  {
    var swap' := swap[slot := SlotPage(now, slot)];
    forall i | 0 <= i < NSLOTS ensures i in swap' && swap'[i] == SlotPage(now, i) {
      if i != slot { assert SlotPage(was, i) == SlotPage(now, i); }
    }
  }

  /** Where uvmalloc stops on the way from page `from` to page `to`: at the first page past MAXVA, if any. */
  function Stop(from: nat, to: nat): nat {
    if to <= MAXVA / PGSIZE then to else if from > MAXVA / PGSIZE then from else MAXVA / PGSIZE
  }

  /** What uvmalloc does from `s` to `t`, its result `sz` and whether it panics. */
  ghost predicate Allocated(s: State, t: State, root: nat, from: nat, to: nat, w: bool, x: bool, newsz: nat, sz: nat,
          panics: bool)
    requires Inv(s) && Root(root) in s.tables && User.Range(root, from, to) !! Memory(s).Keys && from <= to
  {
    RangeEmpty(root, from);
    RangeShorter(root, from, Stop(from, to), to);
    var end := Stop(from, to);
    var r := User.UvmAlloc(s, root, from, from, end, w, x);
    if !r.ok || end == to then
      !panics && t == r.s && sz == if r.ok then newsz else 0
    else
      var a := Ops.Kalloc(r.s);
      panics == a.ok && (!panics ==> sz == 0 && Undone(a.s, t, root, from, end))
  }

  ghost predicate Undone(s: State, t: State, root: nat, from: nat, end: nat) {
    Inv(s) && User.Range(root, from, end) <= Memory(s).Keys && t == User.UvmUnmap(s, root, from, end)
  }

  lemma NothingUndone(s: State, root: nat, p: nat)
    requires Inv(s) && User.Range(root, p, p) <= Memory(s).Keys
    ensures User.UvmUnmap(s, root, p, p) == s
  {
    hide Inv, Memory;
  }

  lemma StopIs(from: nat, to: nat, p: nat)
    requires from <= p <= Stop(from, to) <= to
    ensures p < to && p < MAXVA / PGSIZE ==> p < Stop(from, to)
    ensures p < to && p >= MAXVA / PGSIZE ==> p == Stop(from, to) < to
    ensures p == to ==> Stop(from, to) == to
  {}

  lemma StopBetween(from: nat, to: nat)
    requires from <= to
    ensures from <= Stop(from, to) <= to
  {}

  lemma AllocEnds(s: State, t: State, root: nat, from: nat, to: nat, w: bool, x: bool, newsz: nat, ok: bool)
    requires Inv(s) && Root(root) in s.tables && User.Range(root, from, to) !! Memory(s).Keys && from <= to
    requires User.Range(root, from, from) == {} && User.Range(root, from, Stop(from, to)) !! Memory(s).Keys
    requires User.UvmAlloc(s, root, from, from, Stop(from, to), w, x) == Ops.Done(t, ok)
    requires ok ==> Stop(from, to) == to
    ensures Allocated(s, t, root, from, to, w, x, newsz, if ok then newsz else 0, false)
  {
    hide Inv, Memory, Stop;
  }

  lemma PastTopIs(s: State, u: State, t: State, root: nat, from: nat, to: nat, w: bool, x: bool, newsz: nat,
          panics: bool)
    requires Inv(s) && Root(root) in s.tables && User.Range(root, from, to) !! Memory(s).Keys && from <= to
    requires User.Range(root, from, from) == {} && User.Range(root, from, Stop(from, to)) !! Memory(s).Keys
    requires User.UvmAlloc(s, root, from, from, Stop(from, to), w, x) == Ops.Done(u, true) && Stop(from, to) < to
    requires Inv(u) && panics == Ops.Kalloc(u).ok
    requires !panics ==> Undone(Ops.Kalloc(u).s, t, root, from, Stop(from, to))
    ensures Allocated(s, t, root, from, to, w, x, newsz, 0, panics)
  {
    hide Inv, Memory, Stop, Ops.Kalloc;
  }

  lemma RangeShorter(root: nat, from: nat, mid: nat, to: nat)
    requires mid <= to
    ensures User.Range(root, from, mid) <= User.Range(root, from, to)
  {}

  lemma PagesGrow(a: nat, b: nat)
    requires a <= b
    ensures Pages(a) <= Pages(b)
  {}

  /** The table page that entry `i` of table page `t` points to. */
  function Child(t: TKey, i: nat): TKey
    requires t.level > 0
  {
    TKey(t.root, t.level - 1, t.prefix * 0x200 + i)
  }

  /** The entries of `t` before the `i`th are clear. */
  ghost predicate NoneBelow(tables: map<TKey, nat>, t: TKey, i: nat) {
    forall u {:trigger Teardown.HangsOff(u, t)} :: u in tables && Teardown.HangsOff(u, t) ==>
      u.prefix >= t.prefix * 0x200 + i
  }

  lemma NoChildYet(tables: map<TKey, nat>, t: TKey)
    requires TreeOk(tables) && t in tables
    ensures NoneBelow(tables, t, 0)
  {
    assert Hung(tables, t);
  }

  lemma NoneMore(tables: map<TKey, nat>, t: TKey, i: nat)
    requires NoneBelow(tables, t, i) && (t.level > 0 ==> Child(t, i) !in tables)
    ensures NoneBelow(tables, t, i + 1)
  {}

  /** Freeing a subtree uncovers no entry. */
  lemma NoneStill(tables: map<TKey, nat>, after: map<TKey, nat>, t: TKey, i: nat)
    requires NoneBelow(tables, t, i) && after.Keys <= tables.Keys
    ensures NoneBelow(after, t, i)
  {}

  /** The loop of freewalk comes to the children in the order of their indices. */
  lemma FirstIs(tables: map<TKey, nat>, t: TKey, i: nat)
    requires TreeOk(tables) && t in tables && t.level > 0 && i < 512 && NoneBelow(tables, t, i) && Child(t, i) in tables
    ensures Teardown.HangsOff(Child(t, i), t) && Teardown.Children(tables, t) != {}
    ensures Teardown.FirstChild(tables, t) == Child(t, i)
  {
    var c := Child(t, i);
    assert Hung(tables, t);
    assert c in Teardown.Children(tables, t);
    assert Teardown.FirstChild(tables, t).prefix <= c.prefix;
  }

  /** After 512 entries there is no child left. */
  lemma NoneLeft(s: State, t: TKey)
    requires Inv(s) && Bounded(s.tables) && t in s.tables && NoneBelow(s.tables, t, 512)
    ensures Teardown.Children(s.tables, t) == {}
  {
    hide Lists, BackOk, TablesOk, PtesOk, Unshared, SlotsOk, SwapArea, WalksOk;
    assert Hung(s.tables, t);
    forall u ensures u !in Teardown.Children(s.tables, t) {}
  }

  class Vm {
    const lru: Lru
    var bitmap: seq<bv8>
    var disk: seq<Block>

    var k: Kernel

    ghost var v: State  // the state of the model that the structures represent

    ghost predicate Valid()
      reads this, lru
    {
      && Inv(v) && Bounded(v.tables)
      && Pictures(k, v)
      && lru.Valid() && lru.ring == v.ring && lru.next.Keys == v.role.Keys
      && Bitmap.Shows(bitmap, NSLOTS, v.used) && DiskOk(disk, v.swap)
    }

    /** Boot: kinit hands every frame from `first` up to `last` to kfree in turn, and
        swapinit clears the bitmap; `area` is whatever the disk holds. */
    constructor (first: nat, last: nat, area: seq<Block>)
      requires first <= last && |area| == FSSIZE
      ensures Valid() && fresh(lru) && k.mem.Keys == Frames(first, last)
      ensures v == Boot(k.mem, k.free, v.swap) && |k.free| == last - first
    {
      lru := new Lru(Frames(first, last));
      bitmap := [];
      disk := area;
      var mem, free := Freerange(first, last);
      k := Kernel(mem, free, map[], map[], map[]);
      v := Boot(mem, free, SwapPages(area));
      BootInv(mem, free, SwapPages(area));
      new;
      SwapInit();
    }

    /** swapinit: no slot is in use. */
    method SwapInit()
      modifies this`bitmap
      ensures Bitmap.Shows(bitmap, NSLOTS, {})
    {
      bitmap := seq(4096, _ => 0);
      ZeroMap(bitmap);
    }

    /** freerange at boot: every frame of the range ends up on the free list, once. */
    static method Freerange(first: nat, last: nat) returns (mem: map<nat, Page>, free: seq<nat>)
      requires first <= last
      ensures mem.Keys == Frames(first, last) && |free| == last - first && Distinct(free)
      ensures forall f {:trigger f in free} :: f in free <==> f in mem
    {
      mem, free := map[], [];
      var p := first;
      while p < last
        invariant first <= p <= last && |free| == p - first
        invariant forall i :: 0 <= i < |free| ==> free[i] == p - 1 - i
        invariant mem.Keys == Frames(first, p)
      {
        mem := mem[p := Filled(1)];
        free := [p] + free;
        p := p + 1;
      }
      Descending(free, first, last);
    }

    /** alloc_swap_slot: the lowest clear bit, now set, or -1. */
    method AllocSwapSlot(ghost used: set<nat>) returns (slot: int)
      requires Bitmap.Shows(bitmap, NSLOTS, used)
      modifies this`bitmap
      ensures slot == -1 <==> Ops.FirstFree(used, 0) == NSLOTS
      ensures slot == -1 ==> bitmap == old(bitmap)
      ensures slot != -1 ==> slot == Ops.FirstFree(used, 0) && Bitmap.Shows(bitmap, NSLOTS, used + {slot})
    {
      var i := 0;
      while i < NSLOTS
        invariant 0 <= i <= NSLOTS && bitmap == old(bitmap)
        invariant Ops.FirstFree(used, i) == Ops.FirstFree(used, 0)
      {
        assert i in used <==> Bitmap.Bit(bitmap, i);
        if bitmap[i / 8] & Bitmap.Mask(i % 8) == 0 {
          Bitmap.ShowsSet(bitmap, NSLOTS, used, i);
          bitmap := bitmap[i / 8 := bitmap[i / 8] | Bitmap.Mask(i % 8)];
          return i;
        }
        i := i + 1;
      }
      return -1;
    }

    /** free_swap_slot */
    method FreeSwapSlot(slot: nat, ghost used: set<nat>)
      requires Bitmap.Shows(bitmap, NSLOTS, used) && slot < NSLOTS
      modifies this`bitmap
      ensures Bitmap.Shows(bitmap, NSLOTS, used - {slot})
    {
      Bitmap.ShowsClear(bitmap, NSLOTS, used, slot);
      bitmap := bitmap[slot / 8 := bitmap[slot / 8] & !Bitmap.Mask(slot % 8)];
    }

    /** swapwrite: a frame to the four blocks of a slot, and no other block. */
    method SwapWrite(f: nat, slot: nat)
      requires f in k.mem && slot < NSLOTS && |disk| == FSSIZE
      modifies this`disk
      ensures |disk| == FSSIZE && SlotPage(disk, slot) == k.mem[f]
      ensures forall b :: 0 <= b < FSSIZE && !(SlotBlock(slot) <= b < SlotBlock(slot) + 4) ==> disk[b] == old(disk)[b]
    {
      var base := SlotBlock(slot);
      var page := k.mem[f];
      var i := 0;
      while i < 4
        invariant 0 <= i <= 4 && |disk| == FSSIZE
        invariant forall j :: 0 <= j < i ==> disk[base + j] == Part(page, j)
        invariant forall b :: 0 <= b < FSSIZE && !(base <= b < base + 4) ==> disk[b] == old(disk)[b]
      {
        disk := disk[base + i := Part(page, i)];
        i := i + 1;
      }
      assert disk[base + 0] == Part(page, 0) && disk[base + 1] == Part(page, 1);
      assert disk[base + 2] == Part(page, 2) && disk[base + 3] == Part(page, 3);
      PartsMakePage(page);
    }

    /** swapread: the four blocks of a slot into a frame, whose old contents are `page`. */
    method SwapRead(was: Page, slot: nat) returns (page: Page)
      requires slot < NSLOTS && |disk| == FSSIZE
      ensures page == SlotPage(disk, slot)
    {
      var base := SlotBlock(slot);
      page := was;
      var i := 0;
      while i < 4
        invariant 0 <= i <= 4
        invariant forall j :: 0 <= j < i ==> Part(page, j) == disk[base + j]
      {
        ghost var before := page;
        page := page[..i * 1024] + disk[base + i] + page[i * 1024 + 1024..];
        assert Part(page, i) == disk[base + i];
        assert forall j :: 0 <= j < i ==> Part(page, j) == Part(before, j);
        i := i + 1;
      }
      assert Part(page, 0) == disk[base + 0] && Part(page, 1) == disk[base + 1];
      assert Part(page, 2) == disk[base + 2] && Part(page, 3) == disk[base + 3];
      PartsMakePage(page);
    }

    /** Clear the access bit of the page at the head and let the hand pass it. */
    method SecondChance(cand: nat)
      requires Valid() && v.ring != [] && cand == v.ring[0]
      requires cand in v.back && v.back[cand] in v.ptes
      modifies this`k, this`v, lru
      ensures Valid() && v == Rotate(old(v))
    {
      hide Inv, Decode, Clear, Encodes, Bit, PTE2PA;
      RotateOk(v);
      var key := k.back[cand];
      EncodesRead(k.ptes, v.ptes, key);
      CoolWordDecodes(k.ptes[key]);
      EncodesPut(k.ptes, v.ptes, key, Clear(k.ptes[key], A));
      k := k.(ptes := k.ptes[key := Clear(k.ptes[key], A)]);
      lru.Rotate();
      v := Rotate(v);
    }

    /** The clock hand of swapout: second chances until a page with a clear access bit. */
    method ClockScan() returns (cand: nat)
      requires Valid() && v.ring != []
      modifies this`k, this`v, lru
      ensures Valid() && v == Scan(old(v)) && cand == v.ring[0]
    {
      hide Inv, Decode, Encodes, Bit, PTE2PA, Memory, Bounded;
      cand := lru.head;
      while true
        invariant Valid() && v.ring != [] && cand == v.ring[0]
        invariant Scan(v) == Scan(old(v))
        decreases HotSet(v)
      {
        HeadPresent(v);
        EncodesRead(k.ptes, v.ptes, v.back[cand]);
        var pte := k.ptes[k.back[cand]];
        if !Bit(pte, V) {
          assert false;
        } else if Bit(pte, A) {
          RotateCools(v);
          SecondChance(cand);
          cand := lru.head;
        } else {
          return;
        }
      }
    }
  
    /** swapout once the victim is off the ring and has a slot: write it out, point its
        entry at the slot, free the frame and forget the back-pointer. */
    method WriteOut(victim: nat, slot: nat)
      requires Inv(v) && Bounded(v.tables) && Pictures(k, v) && DiskOk(disk, v.swap)
      requires lru.Valid() && lru.next.Keys == v.role.Keys
      requires v.ring != [] && victim == v.ring[0] && lru.ring == v.ring[1..]
      requires slot < NSLOTS && slot !in v.used && Bitmap.Shows(bitmap, NSLOTS, v.used + {slot})
      modifies this`k, this`v, this`disk
      ensures Valid() && v == Ops.Evict(old(v), slot)
    {
      hide Inv, Memory, Ops.Outs, Bitmap.Shows, Linked, Unlinked, Distinct, SlotPage, Decode, SwapOutWord,
           Encodes, Bit, PTE2PA;
      HeadPresent(v);
      ghost var was := disk;
      SwapWrite(victim, slot);
      SlotWritten(was, disk, v.swap, slot);
      var key := k.back[victim];
      EncodesRead(k.ptes, v.ptes, key);
      SwapOutWordDecodes(k.ptes[key], slot);
      EncodesPut(k.ptes, v.ptes, key, SwapOutWord(k.ptes[key], slot));
      k := k.(ptes := k.ptes[key := SwapOutWord(k.ptes[key], slot)]);
      k := k.(mem := k.mem[victim := Filled(1)], free := [victim] + k.free);
      k := k.(back := k.back - {victim});
      v := Ops.Evict(v, slot);
    }

    /** swapout */
    method SwapOut() returns (ok: bool)
      requires Valid()
      modifies this, lru
      ensures Valid() && v == Ops.SwapOut(old(v)).s && ok == Ops.SwapOut(old(v)).ok
    {
      hide Inv, Memory, Ops.Outs, Ops.CannotEvict, Ops.Evict, Bitmap.Shows, DiskOk, Linked, Unlinked, Distinct,
           Encodes, SlotPage;
      if lru.head == NULL {
        return false;
      }
      var victim := ClockScan();
      HeadPresent(v);
      HeadTail(v.ring);
      lru.Remove(victim);
      var slot := AllocSwapSlot(v.used);
      if slot == -1 {
        lru.Add(victim);
        v := Ops.PutBack(v);
        return false;
      }
      WriteOut(victim, slot);
      return true;
    }
  
    /** kalloc: pop a frame, evicting a page and trying again when there is none. */
    method Kalloc() returns (ok: bool, f: nat)
      requires Valid()
      modifies this, lru
      ensures Valid() && Ops.Kalloc(old(v)) == Ops.Alloc(v, ok, f)
    {
      hide Inv, Memory, Ops.Outs, Ops.CannotEvict, Bitmap.Shows, DiskOk, Linked, Unlinked, Distinct, Ops.KeepsOuts,
           Ops.SwapOut;
      while true
        invariant Valid() && Ops.Kalloc(v) == Ops.Kalloc(old(v))
        decreases if k.free == [] then 1 else 0
      {
        if k.free != [] {
          f := k.free[0];
          k := k.(free := k.free[1..]);
          break;
        }
        var evicted := SwapOut();
        if !evicted {
          return false, 0;
        }
      }
      k := k.(mem := k.mem[f := Filled(5)]);
      PopFreeInv(v);
      v := Ops.Pop(v);
      return true, f;
    }

    /** kfree */
    method Kfree(f: nat)
      requires Valid() && Held(v, f)
      modifies this`k, this`v
      ensures Valid() && v == Ops.Kfree(old(v), f)
    {
      hide Inv, Memory, Ops.Outs, Bitmap.Shows, DiskOk, Linked, Unlinked, Distinct;
      k := k.(mem := k.mem[f := Filled(1)]);
      k := k.(free := [f] + k.free);
      v := Ops.Kfree(v, f);
    }
  
    /** swapin: page `key` in from its slot. */
    method SwapIn(key: Key) returns (ok: bool)
      requires Valid()
      modifies this, lru
      ensures Valid() && Ops.SwapIn(old(v), key) == Ops.Done(v, ok)
    {
      hide Inv, Memory, Ops.Outs, Ops.CannotEvict, Bitmap.Shows, DiskOk, Linked, Unlinked, Distinct, Ops.KeepsOuts,
           Ops.Kalloc, Ops.PageIn, Decode, Encodes, Bit, PTE2PA;
      EncodesKeys(k.ptes, v.ptes);
      if key !in k.ptes {
        return false;
      }
      EncodesRead(k.ptes, v.ptes, key);
      if !Bit(k.ptes[key], SWAPPED) || Bit(k.ptes[key], V) {
        return false;
      }
      var slot := PTE2PA(k.ptes[key]) / PGSIZE;
      Ops.KallocKeepsSwapped(v, key);
      var got, f := Kalloc();
      if !got {
        return false;
      }
      ReadIn(key, f, slot);
      return true;
    }

    /** swapin once it has a frame: read the page, free the slot, validate the entry and
        put the frame on the ring with its back-pointer. */
    method ReadIn(key: Key, f: nat, slot: nat)
      requires Valid() && Held(v, f) && key in v.ptes && v.ptes[key].swapped && slot == v.ptes[key].ppn
      modifies this, lru
      ensures Valid() && v == Ops.PageIn(old(v), key, f)
    {
      hide Lru.Valid, Inv, Memory, Ops.Outs, Bitmap.Shows, DiskOk, Linked, Unlinked, Distinct, SlotPage, Decode,
           SwapInWord, Encodes, Bit, PTE2PA;
      HeldOffRing(v, f);
      SlotInUse(v, key);
      SlotLoads(disk, v.swap, slot);
      var page := SwapRead(k.mem[f], slot);
      FreeSwapSlot(slot, v.used);
      EncodesRead(k.ptes, v.ptes, key);
      assert f * PGSIZE % PGSIZE == 0 && f * PGSIZE / PGSIZE == f;
      SwapInWordDecodes(k.ptes[key], f * PGSIZE);
      EncodesPut(k.ptes, v.ptes, key, SwapInWord(k.ptes[key], f * PGSIZE));
      k := k.(mem := k.mem[f := page], ptes := k.ptes[key := SwapInWord(k.ptes[key], f * PGSIZE)]);
      k := k.(back := k.back[f := key]);
      lru.Add(f);
      v := Ops.PageIn(v, key, f);
    }
  
    /** One level of walk with alloc set. */
    method EnsureTable(t: TKey) returns (ok: bool)
      requires Valid() && t.level < 2 && (t in v.tables || Hangs(v, t, 0)) && (t.level == 1 ==> t.prefix < TOPLEVEL)
      modifies this, lru
      ensures Valid() && Ops.Ensure(old(v), t) == Ops.Done(v, ok)
    {
      hide Inv, Memory, Ops.Outs, Ops.CannotEvict, Bitmap.Shows, DiskOk, Linked, Unlinked, Distinct, Ops.KeepsOuts,
           Ops.Kalloc, Ops.Quiet;
      if t in k.tables {
        return true;
      }
      var got, f := Kalloc();
      if !got {
        return false;
      }
      k := k.(mem := k.mem[f := Filled(0)]);
      k := k.(tables := k.tables[t := f]);
      v := Ops.NewTable(v, t, f);
      return true;
    }

    /** walk(pagetable, va, 1), which panics past MAXVA */
    method Walk(key: Key) returns (ok: bool)
      requires Valid() && Root(key.root) in v.tables && key.vpn < MAXVA / PGSIZE
      modifies this, lru
      ensures Valid() && Ops.Walk(old(v), key) == Ops.Done(v, ok)
    {
      hide Inv, Memory, Ops.Outs, Ops.CannotEvict, Bitmap.Shows, DiskOk, Linked, Unlinked, Distinct, Ops.KeepsOuts,
           Ops.Ensure, Ops.Quiet;
      Ops.WalkQuiet(v, key);
      MidBounded(key);
      var level := 2;
      while level > 0
        invariant 0 <= level <= 2 && Valid()
        invariant level == 2 ==> v == old(v)
        invariant level == 1 ==> Ops.Ensure(old(v), Mid(key)) == Ops.Done(v, true)
        invariant level == 0 ==> Ops.Walk(old(v), key) == Ops.Done(v, true)
      {
        ok := EnsureTable(if level == 2 then Mid(key) else Low(key));
        if !ok {
          return;
        }
        level := level - 1;
      }
      return true;
    }

    /** The tail of a round of uvmalloc or uvmcopy: fill the new frame, map it, and put it on
        the ring, or free it when mappages fails. */
    method Install(key: Key, f: nat, perm: nat, data: Page) returns (ok: bool)
      requires Valid() && Held(v, f) && key !in v.ptes && Root(key.root) in v.tables && key.vpn < MAXVA / PGSIZE
      requires perm < Pow2(10) && !Bit(perm, SWAPPED) && var p := MapPte(f, perm); p.ppn == f && p.v && !p.swapped
      modifies this, lru
      ensures Valid() && User.Install(old(v), key, MapPte(f, perm), data) == Ops.Done(v, ok)
    {
      hide Lru.Valid, Inv, Memory, Ops.Outs, Ops.CannotEvict, Bitmap.Shows, DiskOk, Linked, Unlinked, Distinct,
           Ops.KeepsOuts, Ops.Walk, Ops.Quiet, Decode, MapWord, Bit, Encodes, Pow2;
      ghost var pte := MapPte(f, perm);
      k := k.(mem := k.mem[f := data]);
      HeldOffRing(v, f);
      v := User.Fill(v, f, data);
      ghost var filled := v;
      ok := Walk(key);
      Ops.HeldStays(filled, v, key, f);
      if !ok {
        Kfree(f);
        return;
      }
      HeldOffRing(v, f);
      EncodesPut(k.ptes, v.ptes, key, MapWord(f * PGSIZE, perm));
      k := k.(ptes := k.ptes[key := MapWord(f * PGSIZE, perm)]);
      k := k.(back := k.back[f := key]);
      lru.Add(f);
      v := User.Map(v, key, pte);
    }

    /** uvmunmap of a swapped page: its slot goes back. */
    method UnmapOut(key: Key, slot: nat)
      requires Valid() && key in v.ptes && !v.ptes[key].v && slot == v.ptes[key].ppn
      modifies this
      ensures Valid() && v == UnmapSwapped(old(v), key)
    {
      hide Inv, Memory, Bitmap.Shows, DiskOk, Linked, Unlinked, Distinct, Encodes;
      UnmapSwappedReady(v, key);
      EncodesDrop(k.ptes, v.ptes, key);
      FreeSwapSlot(slot, v.used);
      k := k.(ptes := k.ptes - {key});
      v := UnmapSwapped(v, key);
    }

    /** uvmunmap of a present page: off the ring, and its frame to kfree. */
    method UnmapIn(key: Key, f: nat)
      requires Valid() && key in v.ptes && v.ptes[key].v && f == v.ptes[key].ppn
      modifies this, lru
      ensures Valid() && Held(UnmapListed(old(v), key), f) && Inv(UnmapListed(old(v), key))
      ensures v == Ops.Kfree(UnmapListed(old(v), key), f)
    {
      hide Lru.Valid, Inv, Memory, Ops.Outs, Bitmap.Shows, DiskOk, Linked, Unlinked, Distinct, Encodes;
      UnmapListedInv(v, key);
      PresentFrame(v, key);
      EncodesDrop(k.ptes, v.ptes, key);
      lru.Remove(f);
      k := k.(ptes := k.ptes - {key});
      v := UnmapListed(v, key);
      Kfree(f);
    }

    /** One round of uvmunmap with do_free set. */
    method UnmapPage(key: Key)
      requires Valid() && key in Memory(v)
      modifies this, lru
      ensures Valid() && v == User.UnmapPage(old(v), key)
    {
      hide Inv, Memory, Ops.Outs, Bitmap.Shows, DiskOk, Linked, Unlinked, Distinct, Decode, Encodes, Bit, PTE2PA,
           UnmapListed, UnmapSwapped, Ops.Kfree;
      Fork.MemoryAt(v, key);
      EncodesRead(k.ptes, v.ptes, key);
      var pte := k.ptes[key];
      if !Bit(pte, V) {
        UnmapOut(key, PTE2PA(pte) / PGSIZE);
      } else {
        UnmapIn(key, PTE2PA(pte) / PGSIZE);
      }
    }

    /** uvmunmap(pagetable, va, npages, 1) */
    method UvmUnmap(root: nat, va: nat, npages: nat)
      requires Valid() && va % PGSIZE == 0
      requires User.Range(root, va / PGSIZE, va / PGSIZE + npages) <= Memory(v).Keys
      modifies this, lru
      ensures Valid() && v == User.UvmUnmap(old(v), root, va / PGSIZE, va / PGSIZE + npages)
    {
      hide Inv, Memory, Ops.Outs, Bitmap.Shows, DiskOk, Linked, Unlinked, Distinct, User.UnmapPage, User.Range;
      ghost var end := va / PGSIZE + npages;
      var a := va;
      while a < va + npages * PGSIZE
        invariant a % PGSIZE == 0 && va / PGSIZE <= a / PGSIZE <= end
        invariant Valid() && User.Range(root, a / PGSIZE, end) <= Memory(v).Keys
        invariant User.UvmUnmap(v, root, a / PGSIZE, end) == User.UvmUnmap(old(v), root, va / PGSIZE, end)
      {
        User.LessRange(Memory(v), root, a / PGSIZE, end);
        UnmapPage(Key(root, a / PGSIZE));
        a := a + PGSIZE;
      }
    }
  
    /** uvmdealloc */
    method UvmDealloc(root: nat, oldsz: nat, newsz: nat) returns (sz: nat)
      requires Valid() && (newsz < oldsz ==> User.Range(root, Pages(newsz), Pages(oldsz)) <= Memory(v).Keys)
      modifies this, lru
      ensures Valid() && sz == (if newsz < oldsz then newsz else oldsz)
      ensures v == if newsz < oldsz then User.UvmUnmap(old(v), root, Pages(newsz), Pages(oldsz)) else old(v)
    {
      hide Inv, Memory, Ops.Outs, Bitmap.Shows, DiskOk, Linked, Unlinked, Distinct, User.UnmapPage, User.Range;
      if newsz >= oldsz {
        return oldsz;
      }
      if Pages(newsz) * PGSIZE < Pages(oldsz) * PGSIZE {
        var npages := (Pages(oldsz) * PGSIZE - Pages(newsz) * PGSIZE) / PGSIZE;
        UvmUnmap(root, Pages(newsz) * PGSIZE, npages);
      }
      return newsz;
    }

    /** One round of uvmalloc. */
    method AllocPage(key: Key, w: bool, x: bool) returns (ok: bool)
      requires Valid() && key !in Memory(v) && Root(key.root) in v.tables && key.vpn < MAXVA / PGSIZE
      modifies this, lru
      ensures Valid() && User.AllocPage(old(v), key, w, x) == Ops.Done(v, ok)
    {
      hide Inv, Memory, Ops.Outs, Ops.CannotEvict, Bitmap.Shows, DiskOk, Linked, Unlinked, Distinct, Ops.KeepsOuts,
           Ops.Kalloc, User.Install, Encodes, MapPte, UserFlags, Bit, Pow2;
      Ops.MemoryKeys(v);
      var got, f := Kalloc();
      Ops.MemoryKeys(v);
      if !got {
        return false;
      }
      UserWordDecodes(f, w, x);
      ok := Install(key, f, UserFlags(w, x), Filled(0));
    }

    /** uvmalloc: the new size, or 0 after undoing every page it had added. When it gets to MAXVA and
        kalloc has a frame for the page there, walk panics. */
    method UvmAlloc(root: nat, oldsz: nat, newsz: nat, w: bool, x: bool) returns (sz: nat, panics: bool)
      requires Valid() && Root(root) in v.tables
      requires User.Range(root, Pages(oldsz), Pages(newsz)) !! Memory(v).Keys
      modifies this, lru
      ensures Valid()
      ensures newsz < oldsz ==> v == old(v) && sz == oldsz && !panics
      ensures newsz >= oldsz ==> Allocated(old(v), v, root, Pages(oldsz), Pages(newsz), w, x, newsz, sz, panics)
    {
      hide Inv, Memory, Ops.Outs, Ops.CannotEvict, Bitmap.Shows, DiskOk, Linked, Unlinked, Distinct, User.AllocPage,
           User.UnmapPage, User.Zeros, User.Range, Ops.Walk, Pages, Bounded, Encodes, Allocated, Stop;
      if newsz < oldsz {
        return oldsz, false;
      }
      var start := Pages(oldsz) * PGSIZE;
      var a := start;
      ghost var from, to := Pages(oldsz), Pages(newsz);
      ghost var end, p := Stop(from, to), from;
      PageBelow(from, 0);
      PagesGrow(oldsz, newsz);
      StopBetween(from, to);
      RangeEmpty(root, from);
      RangeShorter(root, from, end, to);
      while a < newsz
        invariant a == p * PGSIZE && from <= p <= end
        invariant Valid() && Root(root) in v.tables
        invariant User.Range(root, from, p) <= Memory(v).Keys && User.Range(root, p, end) !! Memory(v).Keys
        invariant User.UvmAlloc(v, root, from, p, end, w, x) == User.UvmAlloc(old(v), root, from, from, end, w, x)
      {
        PageBelow(p, newsz);
        PageBelow(p, MAXVA);
        StopIs(from, to, p);
        if a >= MAXVA {
          ghost var u := v;
          panics := PastTop(root, a, start);
          PastTopIs(old(v), u, v, root, from, to, w, x, newsz, panics);
          return 0, panics;
        }
        User.MoreZeros(Memory(v), root, from, p, end, w, x);
        var ok := AllocPage(Key(root, a / PGSIZE), w, x);
        if !ok {
          var undone := UvmDealloc(root, a, start);
          AllocEnds(old(v), v, root, from, to, w, x, newsz, false);
          return 0, false;
        }
        a := a + PGSIZE;
        p := p + 1;
      }
      PageBelow(p, newsz);
      StopIs(from, to, p);
      AllocEnds(old(v), v, root, from, to, w, x, newsz, true);
      return newsz, false;
    }

    /** A round of uvmalloc at or past MAXVA: walk panics once kalloc has found a frame. */
    method PastTop(root: nat, a: nat, start: nat) returns (panics: bool)
      requires Valid() && a % PGSIZE == 0 && start % PGSIZE == 0 && start <= a
      requires User.Range(root, start / PGSIZE, a / PGSIZE) <= Memory(v).Keys
      modifies this, lru
      ensures Valid() && panics == Ops.Kalloc(old(v)).ok
      ensures !panics ==> Undone(Ops.Kalloc(old(v)).s, v, root, start / PGSIZE, a / PGSIZE)
    {
      hide Inv, Memory, Ops.Outs, Ops.CannotEvict, Bitmap.Shows, DiskOk, Linked, Unlinked, Distinct, User.Range,
           Bounded, Encodes, Ops.Kalloc, User.UvmUnmap, Pages;
      PageBelow(start / PGSIZE, 0);
      PageBelow(a / PGSIZE, 0);
      var got, f := Kalloc();
      if got {
        return true;
      }
      if a == start {
        RangeEmpty(root, a / PGSIZE);
        NothingUndone(v, root, a / PGSIZE);
      }
      var undone := UvmDealloc(root, a, start);
      return false;
    }

    /** One round of uvmcopy: the source entry is read before kalloc, its page after. */
    method CopyPage(from: Key, to: Key) returns (ok: bool)
      requires Valid() && from in Memory(v) && to !in Memory(v) && Root(to.root) in v.tables && to.vpn == from.vpn
      modifies this, lru
      ensures Valid() && Fork.CopyPage(old(v), from, to) == Ops.Done(v, ok)
    {
      hide Inv, Memory, Ops.Outs, Ops.CannotEvict, Bitmap.Shows, Linked, Unlinked, Distinct, Ops.KeepsOuts, Ops.Kalloc,
           User.Install, SlotPage, Decode, Encodes, MapPte, CopyFlags, Bit, Pow2;
      Ops.MemoryKeys(v);
      PageBounded(v, from);
      EncodesRead(k.ptes, v.ptes, from);
      Fork.EntryHome(v, from);
      SourceHome(v, from);
      Ops.KallocKeepsFrames(v);
      var src := k.ptes[from];
      var got, f := Kalloc();
      Ops.MemoryKeys(v);
      if !got {
        return false;
      }
      var data;
      if Bit(src, V) {
        data := k.mem[PTE2PA(src) / PGSIZE];
      } else {
        HeldOffRing(v, f);
        data := SwapRead(k.mem[f], PTE2PA(src) / PGSIZE);
      }
      CopyPteIs(src, f);
      ok := Install(to, f, CopyFlags(src), data);
    }
  
    /** uvmcopy: 0, or -1 after undoing every page it had copied. */
    method UvmCopy(parent: nat, child: nat, sz: nat) returns (r: int)
      requires Valid() && Fork.CanCopy(v, parent, child, 0, Pages(sz))
      modifies this, lru
      ensures Valid()
      ensures var c := Fork.UvmCopy(old(v), parent, child, 0, Pages(sz)); v == c.s && r == if c.ok then 0 else -1
    {
      hide Inv, Memory, Ops.Outs, Ops.CannotEvict, Bitmap.Shows, DiskOk, Linked, Unlinked, Distinct, Fork.CopyPage,
           User.UnmapPage, Fork.Copies, User.Range, Fork.Spoils;
      ghost var n := Pages(sz);
      var i := 0;
      ghost var p := 0;
      while i < sz
        invariant i == p * PGSIZE && p <= n
        invariant Valid() && Fork.CanCopy(v, parent, child, p, n)
        invariant Fork.UvmCopy(v, parent, child, p, n).s == Fork.UvmCopy(old(v), parent, child, 0, n).s
        invariant Fork.UvmCopy(v, parent, child, p, n).ok == Fork.UvmCopy(old(v), parent, child, 0, n).ok
      {
        PageBelow(p, sz);
        Fork.MoreCopies(Memory(v), parent, child, p, n, Fork.Spoils(v, Key(parent, p)), {});
        var ok := CopyPage(Key(parent, i / PGSIZE), Key(child, i / PGSIZE));
        if !ok {
          UvmUnmap(child, 0, i / PGSIZE);
          return -1;
        }
        i := i + PGSIZE;
        p := p + 1;
      }
      PageBelow(p, sz);
      return 0;
    }

    /** uvmcreate: the frame of a zeroed root table, or nothing. */
    method UvmCreate() returns (ok: bool, root: nat)
      requires Valid()
      modifies this, lru
      ensures Valid() && User.CreateIn(old(v), Ops.Kalloc(old(v))) == Ops.Done(v, ok)
      ensures ok ==> root == Ops.Kalloc(old(v)).frame && Root(root) in v.tables
    {
      hide Inv, Memory, Ops.Outs, Ops.CannotEvict, Bitmap.Shows, DiskOk, Linked, Unlinked, Distinct, Ops.KeepsOuts,
           Ops.Kalloc, Encodes;
      ok, root := Kalloc();
      if !ok {
        return;
      }
      User.RootFresh(v, root);
      k := k.(mem := k.mem[root := Filled(0)]);
      k := k.(tables := k.tables[Root(root) := root]);
      v := Ops.NewTable(v, Root(root), root);
    }

    /** The end of freewalk: kfree of a table page whose entries are all clear. */
    method FreeTable(t: TKey)
      requires Valid() && t in v.tables && Teardown.Children(v.tables, t) == {} && Teardown.NoLeaves(v.ptes, t.root)
      modifies this`k, this`v
      ensures Valid() && v == Teardown.FreeTable(old(v), t)
    {
      hide Inv, Memory, Ops.Outs, Bitmap.Shows, DiskOk, Linked, Unlinked, Distinct, Encodes;
      Teardown.DropInv(v, t);
      var f := k.tables[t];
      k := k.(tables := k.tables - {t});
      v := Teardown.DropTable(v, t);
      Kfree(f);
    }

    /** freewalk: an index at a time, the table below first. */
    method FreeWalk(t: TKey)
      requires Valid() && t in v.tables && Teardown.NoLeaves(v.ptes, t.root)
      modifies this`k, this`v
      ensures Valid() && v == Teardown.FreeWalk(old(v), t)
      decreases t.level
    {
      hide Inv, Memory, Ops.Outs, Bitmap.Shows, DiskOk, Linked, Unlinked, Distinct, Encodes, Teardown.Children,
           Teardown.Subtree, Teardown.FreeTable, Bounded, Lru.Valid;
      Teardown.InvTree(v, t);
      var i := 0;
      NoChildYet(v.tables, t);
      while i < 512
        invariant 0 <= i <= 512 && Valid() && t in v.tables && Teardown.NoLeaves(v.ptes, t.root)
        invariant Teardown.FreeWalk(v, t) == Teardown.FreeWalk(old(v), t)
        invariant NoneBelow(v.tables, t, i)
      {
        if t.level > 0 {
          var child := Child(t, i);
          if child in k.tables {
            Teardown.InvTree(v, t);
            FirstIs(v.tables, t, i);
            Teardown.SubtreeSplit(v.tables, t, child);
            ghost var tables := v.tables;
            FreeWalk(child);
            NoneStill(tables, v.tables, t, i);
          }
          NoneMore(v.tables, t, i);
        } else {
          NoneMore(v.tables, t, i);
        }
        i := i + 1;
      }
      NoneLeft(v, t);
      FreeTable(t);
    }

    /** uvmfree: the pages, then the tables. */
    method UvmFree(root: nat, sz: nat)
      requires Valid() && Teardown.CanFree(v, root, Pages(sz))
      modifies this, lru
      ensures Valid() && v == Teardown.UvmFree(old(v), root, Pages(sz))
    {
      hide Inv, Memory, Ops.Outs, Bitmap.Shows, DiskOk, Linked, Unlinked, Distinct, Encodes, User.UvmUnmap,
           Teardown.FreeWalk, Bounded, Pages;
      PageBelow(0, 0);
      Ops.MemoryKeys(v);
      if sz > 0 {
        UvmUnmap(root, 0, Pages(sz));
      } else {
        NothingUndone(v, root, 0);
      }
      Ops.MemoryKeys(v);
      FreeWalk(Root(root));
    }
  }
}
