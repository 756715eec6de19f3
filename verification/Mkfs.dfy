/** The file system image mkfs builds (mkfs/mkfs.c) and what the kernel can rely on in it. */
module Mkfs {
  import opened Bitmap
  import opened FsModel
  import opened FsCode
  import opened Params

  /** File `i` has a block for every byte below its size, and no other. */
  ghost predicate Dense(d: Disk, i: nat) {
    i < |d.inodes| && forall n: nat {:trigger SlotOf(n)} :: n < MAXFILE ==>
      (Ref(d, i, SlotOf(n)) != 0 <==> n * BSIZE < d.inodes[i].size)
  }

  /** Blocks from `lo` up to `next` are handed out, one to a slot; the rest are zeros. */
  ghost predicate Built(d: Disk, own: map<nat, Place>, lo: nat, hi: nat, next: nat) {
    && Inv(d, own, lo, hi) && lo <= next <= hi
    && (forall b: nat {:trigger b in own} :: b in own <==> lo <= b < next)
    && (forall b {:trigger d.blocks[b]} :: next <= b < |d.blocks| ==> d.blocks[b] == Zeros())
  }

  /** Giving the next block to an empty slot. */
  lemma BuiltMore(d: Disk, t: Disk, own: map<nat, Place>, lo: nat, hi: nat, next: nat, i: nat, k: nat)
    requires Built(d, own, lo, hi, next) && next < hi && Attached(d, t, own, i, k, next)
    ensures Built(t, own[next := Place(i, k)], lo, hi, next + 1) && Grows(d, t, i, k) && Ref(t, i, k) == next
    ensures k != NDIRECT ==> Ref(t, i, NDIRECT) == Ref(d, i, NDIRECT)
  {
    hide Ref, ByteAt;
    Gained(d, t, own, lo, hi, i, k, next);
    assert RefOwned(d, own, i, NDIRECT);
    assert Ref(d, i, NDIRECT) < next;
  }

  /** 1 if the slot is empty. */
  ghost function Missing(d: Disk, i: nat, k: nat): nat { if Ref(d, i, k) == 0 then 1 else 0 }

  /** Blocks needed for block `n` of file `i`. */
  ghost function NewFor(d: Disk, i: nat, n: nat): nat
  {
    Missing(d, i, SlotOf(n)) + if n < NDIRECT then 0 else Missing(d, i, NDIRECT)
  }

  /** Blocks needed for blocks `a` up to `b`. */
  ghost function NewForAll(d: Disk, i: nat, a: nat, b: nat): nat
    requires a <= b
  {
    Holes(d, i, a, b) + if b <= NDIRECT then 0 else Missing(d, i, NDIRECT)
  }

  class Image {
    const lo: nat          // metadata lies below
    const hi: nat          // files may use blocks below
    var d: Disk
    var freeblock: nat
    ghost var own: map<nat, Place>

    ghost predicate Valid()
      reads this
    {
      Built(d, own, lo, hi, freeblock)
    }

    /** mkfs/mkfs.c:88-111: a zeroed disk with free inodes. */
    constructor (lo: nat, hi: nat, size: nat, ninodes: nat)
      requires 0 < lo <= hi <= size && hi < 0x1_0000_0000
      ensures Valid() && this.lo == lo && this.hi == hi && freeblock == lo && |d.inodes| == ninodes
      ensures forall i :: 0 <= i < ninodes ==> d.inodes[i].size == 0 && Dense(d, i)
    {
      this.lo := lo;
      this.hi := hi;
      d := Disk(seq(size, i => Zeros()), seq(ninodes, i => Inode(seq(13, k => 0), 0)));
      freeblock := lo;
      own := map[];
      new;
      forall i: nat, k: nat ensures Ref(d, i, k) == 0 {}
      forall b: nat ensures OwnRef(d, own, lo, b) {}
      forall i: nat, k: nat ensures RefOwned(d, own, i, k) {}
    }

    /** mkfs/mkfs.c:270-285: the block that holds block `n` of the file. */
    method BlockFor(i: nat, n: nat) returns (x: nat)
      requires Valid() && i < |d.inodes| && n < MAXFILE && freeblock + NewFor(d, i, n) <= hi
      modifies this
      ensures Valid() && Grows(old(d), d, i, SlotOf(n)) && x == Ref(d, i, SlotOf(n)) != 0
      ensures freeblock == old(freeblock) + NewFor(old(d), i, n)
      ensures n < NDIRECT ==> Ref(d, i, NDIRECT) == old(Ref(d, i, NDIRECT))
      ensures n >= NDIRECT ==> Ref(d, i, NDIRECT) != 0
    {
      hide Inv, Ref, Attached, WordAt, Shaped;
      AddrShape(d, own, lo, hi, i);
      GrowsNot(d, i, SlotOf(n));
      RefIsNat(d, own, lo, hi, i, SlotOf(n));
      if n < NDIRECT {
        AddrIsRef(d, i, n);
        if d.inodes[i].addrs[n] == 0 { NextAddr(i, n); AddrShape(d, own, lo, hi, i); }
        AddrIsRef(d, i, n);
        return d.inodes[i].addrs[n];
      }
      GrowsNot(d, i, NDIRECT);
      AddrIsRef(d, i, NDIRECT);
      if d.inodes[i].addrs[NDIRECT] == 0 { NextAddr(i, NDIRECT); }
      ghost var mid := d;
      NewTable(old(d), mid, own, lo, hi, i, SlotOf(n));
      if WordAt(d.blocks[d.inodes[i].addrs[NDIRECT]], n - NDIRECT) == 0 { NextEntry(i, n - NDIRECT); }
      GrowsTwice(old(d), mid, d, i, SlotOf(n));
      GrowsNot(d, i, NDIRECT);
      NewTable(d, d, own, lo, hi, i, SlotOf(n));
      x := WordAt(d.blocks[d.inodes[i].addrs[NDIRECT]], n - NDIRECT);
    }

    /** mkfs/mkfs.c:254-296, when the file stays within MAXFILE blocks and its blocks below `hi`. */
    method IAppend(i: nat, src: seq<int>)
      requires Valid() && i < |d.inodes| && Dense(d, i) && d.inodes[i].size + |src| <= MAXFILE * BSIZE
      requires freeblock + NewForAll(d, i, d.inodes[i].size / BSIZE, EndBlock(d.inodes[i].size, |src|)) <= hi
      modifies this
      ensures Valid() && |d.inodes| == |old(d).inodes| && Dense(d, i) && RefsStay(old(d), d)
      ensures var z := old(d).inodes[i].size;
        freeblock <= old(freeblock) + NewForAll(old(d), i, z / BSIZE, EndBlock(z, |src|))
      ensures Content(d, i) == old(Content(d, i)) + src && Written(old(d), d, i, old(d).inodes[i].size, src)
      ensures forall f :: 0 <= f < |d.inodes| && f != i ==>
        Content(d, f) == Content(old(d), f) && (Dense(old(d), f) ==> Dense(d, f))
    {
      hide Inv, Ref, ByteAt, Writing, Written, Built, Dense, Content, Grows, RefsStay, Through, OtherRefs;
      var size := d.inodes[i].size;
      var off := size;
      var tot := 0;
      ghost var d0, free0: int, next: nat := d, freeblock, size / BSIZE;
      ghost var all := NewForAll(d, i, size / BSIZE, EndBlock(size, |src|));
      WriteStart(d, i, off, src);
      OtherRefsStart(d, i);
      while tot < |src|
        invariant Valid() && |d.inodes| == |d0.inodes| && tot <= |src| && off == size + tot
        invariant tot < |src| ==> next == off / BSIZE
        invariant tot == |src| ==> next == EndBlock(size, |src|)
        invariant Writing(d0, d, i, size, src, tot, next, {}, freeblock - free0)
        invariant next <= NDIRECT ==> Ref(d, i, NDIRECT) == Ref(d0, i, NDIRECT)
        invariant OtherRefs(d0, d, i)
        decreases |src| - tot
      {
        ChunkArith(size, |src|, tot, next);
        var m := Chunk(off, |src| - tot);
        ghost var before, free1: int := d, freeblock;
        RoomFor(d0, d, i, size, src, tot, next, freeblock - free0);
        var x := BlockFor(i, off / BSIZE);
        ghost var mid := d;
        SameLength(before, mid, i, SlotOf(next));
        NewCount(before, mid, i, next);
        BuiltInv(mid, own, lo, hi, freeblock);
        WriteGoesOn(d0, before, mid, own, lo, hi, i, size, src, tot, next, {}, free1 - free0, {});
        StoredBuilt(mid, own, lo, hi, freeblock, i, next, off % BSIZE, src[tot..tot + m]);
        OtherRefsMore(d0, before, mid, own, lo, hi, i, next, off % BSIZE, src[tot..tot + m]);
        d := d.(blocks := d.blocks[x := Splice(d.blocks[x], off % BSIZE, src[tot..tot + m])]);
        tot, off, next := tot + m, off + m, next + 1;
      }
      OtherDense(d0, d, own, lo, hi, freeblock, i, off, src, next, freeblock - free0);
      AppendEnds(d0, d, own, lo, hi, freeblock, i, src, next, freeblock - free0);
      d := d.(inodes := d.inodes[i := d.inodes[i].(size := off)]);
    }

    method NextAddr(i: nat, k: nat)
      requires Valid() && i < |d.inodes| && k <= NDIRECT && Ref(d, i, k) == 0 && freeblock < hi
      modifies this
      ensures Valid() && |d.inodes| == |old(d).inodes| && Ref(d, i, k) == old(freeblock) != 0
      ensures Grows(old(d), d, i, k) && freeblock == old(freeblock) + 1
      ensures k != NDIRECT ==> Ref(d, i, NDIRECT) == old(Ref(d, i, NDIRECT))
    {
      hide Inv, Ref, Attached;
      NextIsZero(d, own, lo, hi, freeblock);
      AddrShape(d, own, lo, hi, i);
      AttachAddr(d, own, lo, hi, i, k, freeblock);
      ghost var t := SetAddr(d, i, k, freeblock);
      BuiltMore(d, t, own, lo, hi, freeblock, i, k);
      d := d.(inodes := d.inodes[i := d.inodes[i].(addrs := d.inodes[i].addrs[k := freeblock])]);
      own := own[freeblock := Place(i, k)];
      freeblock := freeblock + 1;
    }

    method NextEntry(i: nat, j: nat)
      requires Valid() && i < |d.inodes| && j < NINDIRECT && Ref(d, i, NDIRECT) != 0 && Ref(d, i, 13 + j) == 0
      requires freeblock < hi
      modifies this
      ensures Valid() && |d.inodes| == |old(d).inodes| && Ref(d, i, 13 + j) == old(freeblock) != 0
      ensures Grows(old(d), d, i, 13 + j) && freeblock == old(freeblock) + 1
      ensures Ref(d, i, NDIRECT) == old(Ref(d, i, NDIRECT))
    {
      hide Inv, Ref, Attached;
      NextIsZero(d, own, lo, hi, freeblock);
      AddrShape(d, own, lo, hi, i);
      AttachEntry(d, own, lo, hi, i, j, freeblock);
      ghost var t := SetEntry(d, i, j, freeblock);
      BuiltMore(d, t, own, lo, hi, freeblock, i, 13 + j);
      var a := d.inodes[i].addrs[NDIRECT];
      d := d.(blocks := d.blocks[a := PutWord(d.blocks[a], j, freeblock)]);
      own := own[freeblock := Place(i, 13 + j)];
      freeblock := freeblock + 1;
    }
  }

  /** The next block is zeros already, so zeroing it changes nothing. */
  lemma NextIsZero(d: Disk, own: map<nat, Place>, lo: nat, hi: nat, next: nat)
    requires Built(d, own, lo, hi, next) && next < hi
    ensures next < |d.blocks| && next !in own && 0 < next && Zeroed(d, next) == d
  {
    assert d.blocks[next := Zeros()] == d.blocks;
  }

  lemma BuiltInv(d: Disk, own: map<nat, Place>, lo: nat, hi: nat, next: nat)
    requires Built(d, own, lo, hi, next)
    ensures Inv(d, own, lo, hi)
  {
  }

  lemma StoredBuilt(d: Disk, own: map<nat, Place>, lo: nat, hi: nat, next: nat, i: nat, n: nat, o: nat, data: seq<int>)
    requires Built(d, own, lo, hi, next) && i < |d.inodes| && n < MAXFILE && Ref(d, i, SlotOf(n)) != 0
    requires o + |data| <= BSIZE
    ensures var b := Ref(d, i, SlotOf(n));
      && 0 < b < |d.blocks| && |d.blocks[b]| == BSIZE && |Stored(d, b, o, data).inodes| == |d.inodes|
      && Built(Stored(d, b, o, data), own, lo, hi, next)
      && Ref(Stored(d, b, o, data), i, NDIRECT) == Ref(d, i, NDIRECT)
  {
    hide Ref;
    StoredInv(d, own, lo, hi, i, n, o, data);
    StoredRef(d, own, lo, hi, i, n, o, data, i, NDIRECT);
    assert RefOwned(d, own, i, SlotOf(n));
  }

  lemma {:induction false} HolesGrow(d: Disk, i: nat, a: nat, b: nat, c: nat)
    requires a <= b <= c
    ensures Holes(d, i, a, b) <= Holes(d, i, a, c)
    decreases c
  {
    hide Ref;
    if b < c { HolesGrow(d, i, a, b, c - 1); }
  }

  /** There is room for the next block if there was for all of them. */
  lemma RoomFor(d: Disk, t: Disk, i: nat, off: nat, src: seq<int>, tot: nat, b: nat, allocs: int)
    requires Writing(d, t, i, off, src, tot, b, {}, allocs) && i < |d.inodes| && tot < |src|
    requires b == (off + tot) / BSIZE && off + |src| <= MAXFILE * BSIZE
    requires b <= NDIRECT ==> Ref(t, i, NDIRECT) == Ref(d, i, NDIRECT)
    ensures allocs + NewFor(t, i, b) <= NewForAll(d, i, off / BSIZE, EndBlock(off, |src|))
  {
    hide Ref, Written;
    ChunkArith(off, |src|, tot, b);
    HolesGrow(d, i, off / BSIZE, b + 1, EndBlock(off, |src|));
    assert Ref(t, i, SlotOf(b)) == Ref(d, i, SlotOf(b));
    assert Ref(d, i, NDIRECT) != 0 ==> Ref(t, i, NDIRECT) == Ref(d, i, NDIRECT);
  }

  lemma NewCount(t: Disk, u: Disk, i: nat, b: nat)
    requires i < |t.inodes| && b < MAXFILE && Ref(u, i, SlotOf(b)) != 0
    requires if b < NDIRECT then Ref(u, i, NDIRECT) == Ref(t, i, NDIRECT) else Ref(u, i, NDIRECT) != 0
    ensures NewFor(t, i, b) == Filled(t, u, i, SlotOf(b)) + Filled(t, u, i, NDIRECT)
  {
    hide Ref;
  }

  /** After an append the file is as dense as before. */
  lemma AppendDense(d: Disk, t: Disk, i: nat, src: seq<int>, b: nat)
    requires i < |d.inodes| == |t.inodes| && Dense(d, i) && b == EndBlock(d.inodes[i].size, |src|)
    requires d.inodes[i].size + |src| <= MAXFILE * BSIZE && Through(d, t, i, d.inodes[i].size / BSIZE, b)
    requires SameRefs(t, Resized(t, i, d.inodes[i].size + |src|))
    ensures Dense(Resized(t, i, d.inodes[i].size + |src|), i)
  {
    hide Ref;
    var off := d.inodes[i].size;
    var u := Resized(t, i, off + |src|);
    forall n: nat | n < MAXFILE ensures Ref(u, i, SlotOf(n)) != 0 <==> n * BSIZE < off + |src| {
      assert Ref(u, i, SlotOf(n)) == Ref(t, i, SlotOf(n));
      assert Ref(d, i, SlotOf(n)) != 0 <==> n * BSIZE < off;
      assert b <= n ==> Ref(t, i, SlotOf(n)) == Ref(d, i, SlotOf(n));
    }
  }

  /** What the loop of iappend leaves, once the new size is stored. */
  lemma AppendEnds(d: Disk, t: Disk, own: map<nat, Place>, lo: nat, hi: nat, next: nat, i: nat, src: seq<int>,
          b: nat, allocs: int)
    requires i < |d.inodes| == |t.inodes| && Dense(d, i) && Built(t, own, lo, hi, next)
    requires d.inodes[i].size + |src| <= MAXFILE * BSIZE && b == EndBlock(d.inodes[i].size, |src|)
    requires Writing(d, t, i, d.inodes[i].size, src, |src|, b, {}, allocs)
    requires b <= NDIRECT ==> Ref(t, i, NDIRECT) == Ref(d, i, NDIRECT)
    ensures var u := Resized(t, i, d.inodes[i].size + |src|);
      && Built(u, own, lo, hi, next) && Dense(u, i) && RefsStay(d, u) && Content(u, i) == Content(d, i) + src
      && Written(d, u, i, d.inodes[i].size, src)
      && (forall f :: 0 <= f < |d.inodes| && f != i ==> Content(u, f) == Content(d, f))
    ensures allocs <= NewForAll(d, i, d.inodes[i].size / BSIZE, b)
  {
    hide Ref, ByteAt, Inv, Content, Dense, Written, EndBlock, SlotOf;
    var off := d.inodes[i].size;
    var u := Resized(t, i, off + |src|);
    WriteEnds(d, t, i, off, src, |src|, b, {}, allocs);
    WroteAll(d, t, own, lo, hi, i, off, src, |src|, {}, allocs, {});
    assert src[..|src|] == src;
    assert u == Resized(t, i, if off + |src| > t.inodes[i].size then off + |src| else t.inodes[i].size);
    ResizedOk(t, own, lo, hi, i, off + |src|);
    SizesFit(u, own, lo, hi);
    WrittenContent(d, u, i, off, src);
    AppendDense(d, t, i, src, b);
    assert Ref(d, i, NDIRECT) != 0 ==> Ref(t, i, NDIRECT) == Ref(d, i, NDIRECT);
  }

  /** The slots of every other inode name what they did. */
  ghost predicate OtherRefs(d: Disk, t: Disk, i: nat) {
    forall x: nat, y: nat {:trigger Ref(t, x, y)} :: x < |d.inodes| && x != i && y < NSLOTS ==>
      Ref(t, x, y) == Ref(d, x, y)
  }

  lemma OtherRefsStart(d: Disk, i: nat)
    ensures OtherRefs(d, d, i)
  {
  }

  lemma OtherRefsMore(d: Disk, t: Disk, u: Disk, own: map<nat, Place>, lo: nat, hi: nat, i: nat, n: nat, o: nat,
          data: seq<int>)
    requires OtherRefs(d, t, i) && |t.inodes| == |d.inodes| && Grows(t, u, i, SlotOf(n)) && i < |d.inodes|
    requires Inv(u, own, lo, hi) && i < |u.inodes| && n < MAXFILE && Ref(u, i, SlotOf(n)) != 0 && o + |data| <= BSIZE
    ensures 0 < Ref(u, i, SlotOf(n)) < |u.blocks| && |u.blocks[Ref(u, i, SlotOf(n))]| == BSIZE
    ensures OtherRefs(d, Stored(u, Ref(u, i, SlotOf(n)), o, data), i)
  {
    hide Ref, Inv;
    StoredRefs(u, own, lo, hi, i, n, o, data);
    var v := Stored(u, Ref(u, i, SlotOf(n)), o, data);
    forall x: nat, y: nat | x < |d.inodes| && x != i && y < NSLOTS ensures Ref(v, x, y) == Ref(d, x, y) {
      assert Ref(v, x, y) == Ref(u, x, y) == Ref(t, x, y);
    }
  }

  lemma OtherDense(d: Disk, t: Disk, own: map<nat, Place>, lo: nat, hi: nat, next: nat, i: nat, z: nat,
          src: seq<int>, b: nat, allocs: int)
    requires i < |d.inodes| == |t.inodes| && OtherRefs(d, t, i) && Built(t, own, lo, hi, next) && z <= MAXFILE * BSIZE
    requires Writing(d, t, i, d.inodes[i].size, src, |src|, b, {}, allocs)
    ensures forall f: nat :: f < |d.inodes| && f != i && Dense(d, f) ==> Dense(Resized(t, i, z), f)
  {
    hide Ref, Inv, Written, Accounted;
    ResizedOk(t, own, lo, hi, i, z);
    var u := Resized(t, i, z);
    forall f: nat | f < |d.inodes| && f != i && Dense(d, f) ensures Dense(u, f) {
      forall n: nat | n < MAXFILE ensures Ref(u, f, SlotOf(n)) != 0 <==> n * BSIZE < u.inodes[f].size {
        assert Ref(u, f, SlotOf(n)) == Ref(t, f, SlotOf(n)) == Ref(d, f, SlotOf(n));
        assert t.inodes[f].size == d.inodes[f].size;
        assert Ref(d, f, SlotOf(n)) != 0 <==> n * BSIZE < d.inodes[f].size;
      }
    }
  }

  /** Rounding the size of the root directory up (mkfs/mkfs.c:165-170) leaves a hole at its end
      exactly when the size was a multiple of the block size already. */
  lemma RootRoundingHole(d: Disk, i: nat)
    requires Dense(d, i) && (d.inodes[i].size / BSIZE + 1) * BSIZE <= MAXFILE * BSIZE
    ensures NoHoles(Resized(d, i, (d.inodes[i].size / BSIZE + 1) * BSIZE), i) <==> d.inodes[i].size % BSIZE != 0
  {
    var z := d.inodes[i].size;
    var last := z / BSIZE;
    var t := Resized(d, i, (last + 1) * BSIZE);
    forall n: nat ensures Ref(t, i, SlotOf(n)) == Ref(d, i, SlotOf(n)) {}
    assert Ref(d, i, SlotOf(last)) != 0 <==> last * BSIZE < z;
    forall n: nat | n * BSIZE < (last + 1) * BSIZE ensures n <= last && n < MAXFILE && (n < last ==> n * BSIZE < z) {}
    if z % BSIZE == 0 { assert last * BSIZE == z; assert Ref(t, i, SlotOf(last)) == 0; }
  }

  /** The numbers below `n`. */
  ghost function First(n: nat): (r: set<nat>)
    ensures forall b: nat {:trigger b in r} :: b in r <==> b < n
  {
    if n == 0 then {} else First(n - 1) + {n - 1}
  }

  /** mkfs/mkfs.c:236-250: one bit for each block handed out. */
  method WriteBitmap(used: nat) returns (buf: seq<bv8>)
    requires used < BPB
    ensures |buf| == BSIZE && Shows(buf, BPB, First(used))
  {
    hide Shows;
    buf := seq(BSIZE, i => 0);
    assert Shows(buf, BPB, {}) by { NoBits(buf); }
    var k := 0;
    ghost var done: set<nat> := {};
    while k < used
      invariant 0 <= k <= used && |buf| == BSIZE && done == First(k) && Shows(buf, BPB, done)
    {
      ShowsSet(buf, BPB, done, k);
      buf := buf[k / 8 := buf[k / 8] | Mask(k % 8)];
      done := done + {k as nat};
      k := k + 1;
    }
  }

  lemma NoBits(buf: seq<bv8>)
    requires |buf| == BSIZE && forall x :: 0 <= x < BSIZE ==> buf[x] == 0
    ensures Shows(buf, BPB, {})
  {
  }

  /** The image mkfs ends with is one the kernel can mount: every bit below the limit is set
      exactly for metadata and for blocks that one slot refers to. */
  lemma ImageMounts(d: Disk, own: map<nat, Place>, lo: nat, hi: nat, next: nat, buf: seq<bv8>)
    requires Built(d, own, lo, hi, next) && hi <= BPB && Shows(buf, BPB, First(next))
    ensures Inv(d, own, lo, hi) && Shows(buf, hi, Used(own, lo, hi))
  {
    hide Inv, Bit;
    var all := First(next);
    forall b: nat | b < hi ensures b in Used(own, lo, hi) <==> Bit(buf, b) {
      assert b in all <==> Bit(buf, b);
      assert b in own <==> lo <= b < next;
    }
  }
}
