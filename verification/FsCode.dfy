/** balloc, bfree, bmap, itrunc, readi and writei (kernel/fs.c) and filewrite (kernel/file.c). */
module FsCode {
  import opened Bitmap
  import opened FsModel
  import opened Params
  import opened Sets

  const BPB: nat := 8192
  const IPB: nat := 16

  /** The layout in the superblock; data blocks start at `nmeta`. */
  datatype Super = Super(size: nat, inodestart: nat, bmapstart: nat, nmeta: nat)

  /** One past the last block files may use (kernel/fs.c:78-80). */
  function Limit(sb: Super): nat { if SWAPBASE > sb.size then sb.size else SWAPBASE }

  /** The bits that should be set: metadata and owned blocks. */
  ghost function Used(own: map<nat, Place>, lo: nat, hi: nat): set<nat> { set b: nat | b < hi && (b < lo || b in own) }

  /** The files of `t` have the bytes and sizes they have in `d`. */
  ghost predicate SameFiles(d: Disk, t: Disk) {
    && |t.inodes| == |d.inodes| && |t.blocks| == |d.blocks|
    && (forall f {:trigger t.inodes[f]} :: 0 <= f < |d.inodes| ==> t.inodes[f].size == d.inodes[f].size)
    && (forall f: nat, x: nat {:trigger ByteAt(t, f, x)} :: f < |d.inodes| && x < MAXFILE * BSIZE ==>
      ByteAt(t, f, x) == ByteAt(d, f, x))
  }

  /** Slots that named a block in `d` name it still. */
  ghost predicate RefsStay(d: Disk, t: Disk) {
    forall i: nat, k: nat {:trigger Ref(t, i, k)} :: i < |d.inodes| && k < NSLOTS && Ref(d, i, k) != 0 ==>
      Ref(t, i, k) == Ref(d, i, k)
  }

  /** No other slot than `k` and that of the indirect block of inode `i` changed. */
  ghost predicate OnlySlot(d: Disk, t: Disk, i: nat, k: nat) {
    forall x: nat, y: nat {:trigger Ref(t, x, y)} ::
      x < |d.inodes| && y < NSLOTS && !(x == i && (y == k || y == NDIRECT)) ==> Ref(t, x, y) == Ref(d, x, y)
  }

  ghost predicate Grows(d: Disk, t: Disk, i: nat, k: nat) {
    SameFiles(d, t) && RefsStay(d, t) && OnlySlot(d, t, i, k)
  }

  /** Every block that differs, data or bitmap, has been passed to log_write. */
  ghost predicate Recorded(d: Disk, bm: seq<bv8>, t: Disk, bn: seq<bv8>, base: nat, logged: set<int>) {
    && |t.blocks| == |d.blocks| && |bn| == |bm|
    && (forall b {:trigger t.blocks[b]} :: 0 <= b < |d.blocks| && t.blocks[b] != d.blocks[b] ==> b in logged)
    && (forall x {:trigger bn[x]} :: 0 <= x < |bm| && bn[x] != bm[x] ==> x / 1024 + base in logged)
  }

  lemma RecordedNone(d: Disk, t: Disk, bm: seq<bv8>, base: nat, logged: set<int>)
    requires t.blocks == d.blocks
    ensures Recorded(d, bm, t, bm, base, logged)
  {}

  lemma RecordedTwice(d: Disk, bm: seq<bv8>, t: Disk, bn: seq<bv8>, u: Disk, bo: seq<bv8>, base: nat, some: set<int>,
          logged: set<int>)
    requires Recorded(d, bm, t, bn, base, some) && Recorded(t, bn, u, bo, base, logged) && some <= logged
    ensures Recorded(d, bm, u, bo, base, logged)
  {
    forall b | 0 <= b < |d.blocks| && u.blocks[b] != d.blocks[b] ensures b in logged {
      assert t.blocks[b] == d.blocks[b] || b in some;
    }
    forall x | 0 <= x < |bm| && bo[x] != bm[x] ensures x / 1024 + base in logged {
      assert bn[x] == bm[x] || x / 1024 + base in some;
    }
  }

  /** One block written, and one byte of the bitmap. */
  lemma RecordedOne(d: Disk, bm: seq<bv8>, t: Disk, bn: seq<bv8>, base: nat, logged: set<int>, b: nat, x: nat)
    requires |t.blocks| == |d.blocks| && |bn| == |bm| && b in logged && x / 1024 + base in logged
    requires forall c :: 0 <= c < |d.blocks| && c != b ==> t.blocks[c] == d.blocks[c]
    requires forall y :: 0 <= y < |bm| && y != x ==> bn[y] == bm[y]
    ensures Recorded(d, bm, t, bn, base, logged)
  {}

  lemma RecordedBits(d: Disk, bm: seq<bv8>, bn: seq<bv8>, base: nat, logged: set<int>, x: nat)
    requires |bn| == |bm| && x / 1024 + base in logged
    requires forall y :: 0 <= y < |bm| && y != x ==> bn[y] == bm[y]
    ensures Recorded(d, bm, d, bn, base, logged)
  {}

  lemma RecordedBlock(d: Disk, t: Disk, bm: seq<bv8>, base: nat, logged: set<int>, b: int)
    requires |t.blocks| == |d.blocks| && b in logged
    requires forall c :: 0 <= c < |d.blocks| && c != b ==> t.blocks[c] == d.blocks[c]
    ensures Recorded(d, bm, t, bm, base, logged)
  {}

  /** One of the first `k` copies fails. */
  ghost predicate Fails(copies: nat -> bool, k: nat) { exists j :: 0 <= j < k && !copies(j) }

  lemma NoneFails(copies: nat -> bool)
    ensures !Fails(copies, 0)
  {}

  lemma FailsAt(copies: nat -> bool, j: nat, k: nat)
    requires j < k && !copies(j)
    ensures Fails(copies, k)
  {}

  lemma NextCopied(copies: nat -> bool, j: nat)
    requires !Fails(copies, j) && copies(j)
    ensures !Fails(copies, j + 1)
  {}

  /** The blocks that `n` bytes at `off` lie in. */
  function Span(off: nat, n: nat): nat { EndBlock(off, n) - off / BSIZE }

  /** The block itself, unless it is 0 for none. */
  ghost function Just(b: int): set<int> { if b == 0 then {} else {b} }

  /** 1 if the slot was empty and is not any more. */
  ghost function Filled(d: Disk, t: Disk, i: nat, k: nat): nat
  {
    if Ref(d, i, k) == 0 && Ref(t, i, k) != 0 then 1 else 0
  }

  lemma Gained(d: Disk, t: Disk, own: map<nat, Place>, lo: nat, hi: nat, i: nat, k: nat, b: nat)
    requires Inv(d, own, lo, hi) && Attached(d, t, own, i, k, b) && lo <= b < hi
    ensures Inv(t, own[b := Place(i, k)], lo, hi) && Used(own[b := Place(i, k)], lo, hi) == Used(own, lo, hi) + {b}
    ensures Grows(d, t, i, k) && Ref(t, i, k) == b && (k != NDIRECT ==> Ref(t, i, NDIRECT) == Ref(d, i, NDIRECT))
  {
    hide Ref, ByteAt;
    AttachedInv(d, t, own, lo, hi, i, k, b);
    forall f: nat, x: nat | f < |d.inodes| && x < MAXFILE * BSIZE ensures ByteAt(t, f, x) == ByteAt(d, f, x) {
      AttachedBytes(d, t, own, lo, hi, i, k, b, f, x);
    }
  }

  lemma GrowsTwice(d: Disk, m: Disk, t: Disk, i: nat, k: nat)
    requires Grows(d, m, i, NDIRECT) && Grows(m, t, i, k) && k < NSLOTS && i < |d.inodes|
    ensures Grows(d, t, i, k)
  {
    hide Ref, ByteAt;
    forall x: nat, y: nat | x < |d.inodes| && y < NSLOTS && Ref(d, x, y) != 0 ensures Ref(t, x, y) == Ref(d, x, y) {
      assert Ref(m, x, y) == Ref(d, x, y);
    }
    forall f: nat, x: nat | f < |d.inodes| && x < MAXFILE * BSIZE ensures ByteAt(t, f, x) == ByteAt(d, f, x) {
      assert ByteAt(m, f, x) == ByteAt(d, f, x);
    }
    forall x: nat, y: nat | x < |d.inodes| && y < NSLOTS && !(x == i && (y == k || y == NDIRECT))
      ensures Ref(t, x, y) == Ref(d, x, y)
    {
      assert Ref(m, x, y) == Ref(d, x, y);
    }
    forall f | 0 <= f < |d.inodes| ensures t.inodes[f].size == d.inodes[f].size {
      assert m.inodes[f].size == d.inodes[f].size;
    }
  }

  /** `data` stands at `off` in file `i`, and no other byte of any file changed. */
  ghost predicate Written(d: Disk, t: Disk, i: nat, off: nat, data: seq<int>) {
    && |t.inodes| == |d.inodes| && |t.blocks| == |d.blocks|
    && forall f: nat, x: nat {:trigger ByteAt(t, f, x)} :: f < |d.inodes| && x < MAXFILE * BSIZE ==>
        ByteAt(t, f, x) == if f == i && off <= x < off + |data| then data[x - off] else ByteAt(d, f, x)
  }

  ghost predicate SameSizes(d: Disk, t: Disk) {
    |t.inodes| == |d.inodes| && forall f {:trigger t.inodes[f]} :: 0 <= f < |d.inodes| ==>
      t.inodes[f].size == d.inodes[f].size
  }

  lemma WrittenMore(d: Disk, a: Disk, b: Disk, own: map<nat, Place>, lo: nat, hi: nat, i: nat, off: nat,
          src: seq<int>, tot: nat, m: nat)
    requires tot + m <= |src| && off + |src| <= MAXFILE * BSIZE && m > 0
    requires Written(d, a, i, off, src[..tot]) && SameFiles(a, b) && Inv(b, own, lo, hi) && i < |b.inodes|
    requires var p := off + tot; p % BSIZE + m <= BSIZE && Ref(b, i, SlotOf(p / BSIZE)) != 0
    ensures var p := off + tot; var addr := Ref(b, i, SlotOf(p / BSIZE));
      && p / BSIZE < MAXFILE && 0 < addr < |b.blocks| && |b.blocks[addr]| == BSIZE
      && Written(d, Stored(b, addr, p % BSIZE, src[tot..tot + m]), i, off, src[..tot + m])
      && Inv(Stored(b, addr, p % BSIZE, src[tot..tot + m]), own, lo, hi)
  {
    hide Inv, Ref, ByteAt;
    var p := off + tot;
    var n, o, data := p / BSIZE, p % BSIZE, src[tot..tot + m];
    assert n < MAXFILE;
    StoredInv(b, own, lo, hi, i, n, o, data);
    var t := Stored(b, Ref(b, i, SlotOf(n)), o, data);
    forall f: nat, x: nat | f < |d.inodes| && x < MAXFILE * BSIZE
      ensures ByteAt(t, f, x) == if f == i && off <= x < off + tot + m then src[x - off] else ByteAt(d, f, x)
    {
      StoredBytes(b, own, lo, hi, i, n, o, data, f, x);
      assert ByteAt(b, f, x) == ByteAt(a, f, x);
    }
  }

  ghost predicate SameRefs(d: Disk, t: Disk) {
    forall x: nat, y: nat {:trigger Ref(t, x, y)} :: x < |d.inodes| && y < NSLOTS ==> Ref(t, x, y) == Ref(d, x, y)
  }

  lemma StoredRefs(d: Disk, own: map<nat, Place>, lo: nat, hi: nat, i: nat, n: nat, o: nat, data: seq<int>)
    requires Inv(d, own, lo, hi) && i < |d.inodes| && n < MAXFILE && Ref(d, i, SlotOf(n)) != 0 && o + |data| <= BSIZE
    ensures 0 < Ref(d, i, SlotOf(n)) < |d.blocks| && |d.blocks[Ref(d, i, SlotOf(n))]| == BSIZE
    ensures SameRefs(d, Stored(d, Ref(d, i, SlotOf(n)), o, data))
  {
    hide Inv, Ref;
    StoredInv(d, own, lo, hi, i, n, o, data);
    forall x: nat, y: nat | x < |d.inodes| && y < NSLOTS
      ensures Ref(Stored(d, Ref(d, i, SlotOf(n)), o, data), x, y) == Ref(d, x, y)
    {
      StoredRef(d, own, lo, hi, i, n, o, data, x, y);
    }
  }

  // ---- counting what a write logs ----

  /** Blocks `a` up to `b` of file `i`. */
  ghost function FileBlocks(d: Disk, i: nat, a: nat, b: nat): (r: set<int>)
    requires a <= b
    ensures |r| <= b - a
    ensures forall n :: a <= n < b ==> Ref(d, i, SlotOf(n)) in r
    decreases b
  {
    if a == b then {} else FileBlocks(d, i, a, b - 1) + {Ref(d, i, SlotOf(b - 1))}
  }

  /** How many of them are missing. */
  ghost function Holes(d: Disk, i: nat, a: nat, b: nat): (r: nat)
    requires a <= b
    ensures r <= b - a
    decreases b
  {
    if a == b then 0 else Holes(d, i, a, b - 1) + if Ref(d, i, SlotOf(b - 1)) == 0 then 1 else 0
  }

  /** A write has gone through blocks `a` up to `b` of file `i`. */
  ghost predicate Through(d: Disk, t: Disk, i: nat, a: nat, b: nat) {
    && |t.inodes| == |d.inodes| && SameSizes(d, t) && RefsStay(d, t)
    && (forall n {:trigger SlotOf(n)} :: a <= n < b ==> Ref(t, i, SlotOf(n)) != 0)
    && (forall n {:trigger SlotOf(n)} :: b <= n < MAXFILE ==> Ref(t, i, SlotOf(n)) == Ref(d, i, SlotOf(n)))
  }

  lemma ThroughMore(d: Disk, t: Disk, u: Disk, i: nat, a: nat, b: nat)
    requires i < |d.inodes| && a <= b < MAXFILE && Through(d, t, i, a, b) && Grows(t, u, i, SlotOf(b))
    ensures Ref(u, i, SlotOf(b)) != 0 ==> Through(d, u, i, a, b + 1)
    ensures Ref(u, i, SlotOf(b)) == 0 ==> Through(d, u, i, a, b)
    ensures FileBlocks(u, i, a, b) == FileBlocks(t, i, a, b)
  {
    hide Ref, ByteAt;
    forall x: nat, y: nat | x < |d.inodes| && y < NSLOTS && Ref(d, x, y) != 0 ensures Ref(u, x, y) == Ref(d, x, y) {
      assert Ref(t, x, y) == Ref(d, x, y);
    }
    forall n | b < n < MAXFILE ensures Ref(u, i, SlotOf(n)) == Ref(d, i, SlotOf(n)) {
      assert Ref(u, i, SlotOf(n)) == Ref(t, i, SlotOf(n));
    }
    if Ref(t, i, SlotOf(b)) == 0 { assert Ref(d, i, SlotOf(b)) == 0; }
    forall f | 0 <= f < |d.inodes| ensures u.inodes[f].size == d.inodes[f].size {
      assert t.inodes[f].size == d.inodes[f].size;
    }
    SameFileBlocks(t, u, i, a, b);
  }

  lemma {:induction false} SameFileBlocks(d: Disk, t: Disk, i: nat, a: nat, b: nat)
    requires a <= b <= MAXFILE && i < |d.inodes| && RefsStay(d, t)
    requires forall n {:trigger SlotOf(n)} :: a <= n < b ==> Ref(d, i, SlotOf(n)) != 0
    ensures FileBlocks(t, i, a, b) == FileBlocks(d, i, a, b)
    decreases b
  {
    hide Ref;
    if a < b {
      SameFileBlocks(d, t, i, a, b - 1);
      assert Ref(t, i, SlotOf(b - 1)) == Ref(d, i, SlotOf(b - 1));
    }
  }

  /** One past the last block a write of `n` bytes at `off` touches. */
  function EndBlock(off: nat, n: nat): (r: nat)
    ensures off / BSIZE <= r
  {
    if n == 0 then off / BSIZE else (off + n - 1) / BSIZE + 1
  }

  lemma SpanNone(off: nat)
    ensures Span(off, 0) == 0
  {}

  /** Before byte `tot` of `n` lie fewer blocks than all, and after the last chunk all. */
  lemma SpanMore(off: nat, n: nat, tot: nat, j: nat)
    requires tot < n && (off + tot) / BSIZE == off / BSIZE + j
    ensures j < Span(off, n)
    ensures tot + Chunk(off + tot, n - tot) == n ==> j + 1 == Span(off, n)
  {}

  /** What has been logged and allocated on the way from `d` to `t`: data blocks `a` up to `b` of
      file `i`, its indirect block, and the bitmap blocks in `maps`. */
  ghost predicate Accounted(d: Disk, t: Disk, i: nat, a: nat, b: nat, news: set<int>, allocs: int)
    requires a <= b
  {
    news <= Just(Ref(t, i, NDIRECT)) + FileBlocks(t, i, a, b) && allocs <= Holes(d, i, a, b) + Filled(d, t, i, NDIRECT)
  }

  lemma {:induction false} AccountedFarther(d: Disk, t: Disk, i: nat, a: nat, b: nat, c: nat, news: set<int>,
          allocs: int)
    requires a <= b <= c && Accounted(d, t, i, a, b, news, allocs)
    ensures Accounted(d, t, i, a, c, news, allocs)
    decreases c
  {
    hide Ref;
    if b < c { AccountedFarther(d, t, i, a, b, c - 1, news, allocs); }
  }

  lemma AccountedMore(d: Disk, t: Disk, u: Disk, i: nat, a: nat, b: nat, news: set<int>, allocs: int, news': set<int>)
    requires i < |d.inodes| && a <= b < MAXFILE && Through(d, t, i, a, b) && Grows(t, u, i, SlotOf(b))
    requires Accounted(d, t, i, a, b, news, allocs)
    requires news' <= news + Just(Ref(u, i, SlotOf(b))) + Just(Ref(u, i, NDIRECT))
    ensures var more := allocs + Filled(t, u, i, SlotOf(b)) + Filled(t, u, i, NDIRECT);
      Accounted(d, u, i, a, b + 1, news', more)
  {
    hide Ref, Grows, Through;
    ThroughMore(d, t, u, i, a, b);
    SlotHistory(d, t, u, i, a, b);
  }

  lemma SlotHistory(d: Disk, t: Disk, u: Disk, i: nat, a: nat, b: nat)
    requires i < |d.inodes| && a <= b < MAXFILE && Through(d, t, i, a, b) && Grows(t, u, i, SlotOf(b))
    ensures Ref(t, i, SlotOf(b)) == Ref(d, i, SlotOf(b))
    ensures Ref(d, i, NDIRECT) != 0 ==> Ref(t, i, NDIRECT) == Ref(d, i, NDIRECT)
    ensures Ref(t, i, NDIRECT) != 0 ==> Ref(u, i, NDIRECT) == Ref(t, i, NDIRECT)
  {
    hide Ref, SameFiles;
  }

  lemma SameHoles(d: Disk, t: Disk, i: nat, a: nat, b: nat)
    requires SameRefs(d, t) && i < |d.inodes| && a <= b <= MAXFILE
    ensures FileBlocks(t, i, a, b) == FileBlocks(d, i, a, b)
  {
    hide Ref;
    if a < b {
      SameHoles(d, t, i, a, b - 1);
      assert Ref(t, i, SlotOf(b - 1)) == Ref(d, i, SlotOf(b - 1));
    }
  }

  /** A change that moves no reference keeps the accounts. */
  lemma RefsKeep(d: Disk, t: Disk, u: Disk, i: nat, a: nat, b: nat, news: set<int>, allocs: int)
    requires i < |d.inodes| == |t.inodes| == |u.inodes| && a <= b <= MAXFILE && SameRefs(t, u)
    requires Through(d, t, i, a, b) && Accounted(d, t, i, a, b, news, allocs)
    ensures Accounted(d, u, i, a, b, news, allocs) && RefsStay(d, u)
    ensures forall n {:trigger SlotOf(n)} :: a <= n < b ==> Ref(u, i, SlotOf(n)) != 0
    ensures SameSizes(t, u) ==> Through(d, u, i, a, b)
  {
    hide Ref;
    SameHoles(t, u, i, a, b);
    assert Ref(u, i, NDIRECT) == Ref(t, i, NDIRECT);
    forall x: nat, y: nat | x < |d.inodes| && y < NSLOTS && Ref(d, x, y) != 0 ensures Ref(u, x, y) == Ref(d, x, y) {
      assert Ref(t, x, y) == Ref(d, x, y);
    }
    forall n | a <= n < b ensures Ref(u, i, SlotOf(n)) != 0 { assert Ref(u, i, SlotOf(n)) == Ref(t, i, SlotOf(n)); }
    if SameSizes(t, u) {
      forall f | 0 <= f < |d.inodes| ensures u.inodes[f].size == d.inodes[f].size {
        assert t.inodes[f].size == d.inodes[f].size;
      }
      forall n | b <= n < MAXFILE ensures Ref(u, i, SlotOf(n)) == Ref(d, i, SlotOf(n)) {
        assert Ref(u, i, SlotOf(n)) == Ref(t, i, SlotOf(n));
      }
    }
  }

  lemma WrittenSame(d: Disk, t: Disk, u: Disk, i: nat, off: nat, data: seq<int>)
    requires Written(d, t, i, off, data) && SameFiles(t, u)
    ensures Written(d, u, i, off, data)
  {
    hide ByteAt;
    forall f: nat, x: nat | f < |d.inodes| && x < MAXFILE * BSIZE
      ensures ByteAt(u, f, x) == if f == i && off <= x < off + |data| then data[x - off] else ByteAt(d, f, x)
        { assert ByteAt(u, f, x) == ByteAt(t, f, x); }
  }

  /** Setting the size of an inode moves no reference and changes no byte. */
  function Resized(d: Disk, i: nat, z: nat): Disk
    requires i < |d.inodes|
  {
    d.(inodes := d.inodes[i := d.inodes[i].(size := z)])
  }

  lemma ResizedOk(d: Disk, own: map<nat, Place>, lo: nat, hi: nat, i: nat, z: nat)
    requires Inv(d, own, lo, hi) && i < |d.inodes| && z <= MAXFILE * BSIZE
    ensures Inv(Resized(d, i, z), own, lo, hi) && SameRefs(d, Resized(d, i, z))
    ensures forall f: nat, x: nat {:trigger ByteAt(Resized(d, i, z), f, x)} ::
      ByteAt(Resized(d, i, z), f, x) == ByteAt(d, f, x)
  {
    var t := Resized(d, i, z);
    forall f: nat, k: nat ensures Ref(t, f, k) == Ref(d, f, k) {}
    forall b: nat ensures OwnRef(t, own, lo, b) { assert OwnRef(d, own, lo, b); }
    forall x: nat, y: nat | x < |t.inodes| && y < NSLOTS ensures RefOwned(t, own, x, y) {
      assert RefOwned(d, own, x, y);
    }
  }

  /** Bytes for the next block of a copy: the rest, or up to the end of the block. */
  function Chunk(off: nat, rest: nat): nat { if rest < BSIZE - off % BSIZE then rest else BSIZE - off % BSIZE }

  lemma ChunkArith(off0: nat, n: nat, tot: nat, next: nat)
    requires tot < n && next == (off0 + tot) / BSIZE && off0 + n <= MAXFILE * BSIZE
    ensures var m := Chunk(off0 + tot, n - tot);
      && 0 < m <= n - tot && (off0 + tot) % BSIZE + m <= BSIZE && next < MAXFILE && next + 1 <= EndBlock(off0, n)
      && (tot + m < n ==> (off0 + tot + m) / BSIZE == next + 1) && EndBlock(off0, tot + m) == next + 1
  {
  }

  /** writei has written `tot` bytes from `off` on and is at block `b` of the file. */
  ghost predicate Writing(d: Disk, t: Disk, i: nat, off: nat, src: seq<int>, tot: nat, b: nat, news: set<int>,
          allocs: int) {
    && tot <= |src| && off / BSIZE <= b <= EndBlock(off, |src|) && EndBlock(off, tot) <= b
    && Written(d, t, i, off, src[..tot]) && Through(d, t, i, off / BSIZE, b)
      && Accounted(d, t, i, off / BSIZE, b, news, allocs)
  }

  /** What writei has done when it stops after `tot` bytes. */
  ghost predicate Wrote(d: Disk, t: Disk, i: nat, off: nat, src: seq<int>, tot: nat, news: set<int>, allocs: int) {
    && tot <= |src| && Written(d, t, i, off, src[..tot]) && RefsStay(d, t) && SameSizes(d, t)
    && (forall n {:trigger SlotOf(n)} :: off / BSIZE <= n < EndBlock(off, tot) ==> Ref(t, i, SlotOf(n)) != 0)
    && Accounted(d, t, i, off / BSIZE, EndBlock(off, |src|), news, allocs)
  }

  lemma WriteStart(d: Disk, i: nat, off: nat, src: seq<int>)
    ensures Writing(d, d, i, off, src, 0, off / BSIZE, {}, 0)
  {
    hide Ref, ByteAt;
  }

  lemma WriteEnds(d: Disk, t: Disk, i: nat, off: nat, src: seq<int>, tot: nat, b: nat, news: set<int>, allocs: int)
    requires Writing(d, t, i, off, src, tot, b, news, allocs)
    ensures Wrote(d, t, i, off, src, tot, news, allocs)
  {
    hide Ref, ByteAt, Accounted, Written;
    AccountedFarther(d, t, i, off / BSIZE, b, EndBlock(off, |src|), news, allocs);
  }

  lemma WriteStops(d: Disk, t: Disk, u: Disk, i: nat, off: nat, src: seq<int>, tot: nat, b: nat, news: set<int>,
          allocs: int, news': set<int>)
    requires Writing(d, t, i, off, src, tot, b, news, allocs) && tot < |src| && b == (off + tot) / BSIZE
    requires off + |src| <= MAXFILE * BSIZE
    requires i < |d.inodes| && b < MAXFILE && Grows(t, u, i, SlotOf(b))
    requires news' <= news + Just(Ref(u, i, SlotOf(b))) + Just(Ref(u, i, NDIRECT))
    ensures Wrote(d, u, i, off, src, tot, news', allocs + Filled(t, u, i, SlotOf(b)) + Filled(t, u, i, NDIRECT))
  {
    hide Ref, ByteAt, Accounted, Written;
    var a, e := off / BSIZE, EndBlock(off, |src|);
    ChunkArith(off, |src|, tot, b);
    AccountedMore(d, t, u, i, a, b, news, allocs, news');
    ThroughMore(d, t, u, i, a, b);
    WrittenSame(d, t, u, i, off, src[..tot]);
    AccountedFarther(d, u, i, a, b + 1, e, news', allocs + Filled(t, u, i, SlotOf(b)) + Filled(t, u, i, NDIRECT));
  }

  lemma GrowsFiles(d: Disk, t: Disk, i: nat, k: nat)
    requires Grows(d, t, i, k)
    ensures SameFiles(d, t) && |t.inodes| == |d.inodes|
  {}

  lemma ThroughLength(d: Disk, t: Disk, i: nat, a: nat, b: nat)
    requires Through(d, t, i, a, b)
    ensures |t.inodes| == |d.inodes|
  {}

  lemma WriteGoesOn(d: Disk, t: Disk, u: Disk, own: map<nat, Place>, lo: nat, hi: nat, i: nat, off: nat,
          src: seq<int>, tot: nat, b: nat, news: set<int>, allocs: int, news': set<int>)
    requires Writing(d, t, i, off, src, tot, b, news, allocs) && tot < |src| && b == (off + tot) / BSIZE
    requires off + |src| <= MAXFILE * BSIZE
    requires i < |d.inodes| && b < MAXFILE && Grows(t, u, i, SlotOf(b)) && Inv(u, own, lo, hi) && i < |u.inodes|
    requires Ref(u, i, SlotOf(b)) != 0
    requires news' <= news + Just(Ref(u, i, SlotOf(b))) + Just(Ref(u, i, NDIRECT))
    ensures var m := Chunk(off + tot, |src| - tot); var p := Ref(u, i, SlotOf(b)); var o := (off + tot) % BSIZE;
      && 0 < p < |u.blocks| && tot + m <= |src| && o + m <= BSIZE && |u.blocks[p]| == BSIZE
      && Writing(d, Stored(u, p, o, src[tot..tot + m]), i, off, src, tot + m, b + 1, news',
        allocs + Filled(t, u, i, SlotOf(b)) + Filled(t, u, i, NDIRECT))
  {
    hide Ref, ByteAt, Accounted, Written, Inv, Grows, Just, Filled, Through, EndBlock, SameFiles, SameRefs;
    ThroughLength(d, t, i, off / BSIZE, b);
    ChunkArith(off, |src|, tot, b);
    var a, m := off / BSIZE, Chunk(off + tot, |src| - tot);
    GrowsFiles(t, u, i, SlotOf(b));
    AccountedMore(d, t, u, i, a, b, news, allocs, news');
    ThroughMore(d, t, u, i, a, b);
    WrittenMore(d, t, u, own, lo, hi, i, off, src, tot, m);
    StoredRefs(u, own, lo, hi, i, b, (off + tot) % BSIZE, src[tot..tot + m]);
    RefsKeep(d, u, Stored(u, Ref(u, i, SlotOf(b)), (off + tot) % BSIZE, src[tot..tot + m]), i, a, b + 1, news',
      allocs + Filled(t, u, i, SlotOf(b)) + Filled(t, u, i, NDIRECT));
  }

  /** Every byte below the size is in a block. */
  ghost predicate NoHoles(d: Disk, i: nat) {
    i < |d.inodes| && forall n: nat {:trigger SlotOf(n)} :: n * BSIZE < d.inodes[i].size ==> Ref(d, i, SlotOf(n)) != 0
  }

  /** The whole of writei: blocks, then size. */
  lemma WroteAll(d: Disk, t: Disk, own: map<nat, Place>, lo: nat, hi: nat, i: nat, off: nat, src: seq<int>,
          tot: nat, news: set<int>, allocs: int, news': set<int>)
    requires Wrote(d, t, i, off, src, tot, news, allocs) && Inv(t, own, lo, hi) && i < |d.inodes| == |t.inodes|
    requires off + |src| <= MAXFILE * BSIZE && off <= d.inodes[i].size <= MAXFILE * BSIZE && news' <= news
    ensures var z := d.inodes[i].size;
      var u := Resized(t, i, if off + tot > t.inodes[i].size then off + tot else t.inodes[i].size);
      && Written(d, u, i, off, src[..tot]) && RefsStay(d, u) && (NoHoles(d, i) ==> NoHoles(u, i))
      && (forall f :: 0 <= f < |d.inodes| ==>
            u.inodes[f].size == if f == i && off + tot > z then off + tot else d.inodes[f].size)
      && Accounted(d, u, i, off / BSIZE, EndBlock(off, |src|), news', allocs)
  {
    hide Ref, ByteAt, Inv;
    var z := if off + tot > t.inodes[i].size then off + tot else t.inodes[i].size;
    var u := Resized(t, i, z);
    assert t.inodes[i].size == d.inodes[i].size;
    ResizedOk(t, own, lo, hi, i, z);
    SameHoles(t, u, i, off / BSIZE, EndBlock(off, |src|));
    forall x: nat, y: nat | x < |d.inodes| && y < NSLOTS
      ensures Ref(u, x, y) == Ref(t, x, y) && (Ref(d, x, y) != 0 ==> Ref(u, x, y) == Ref(d, x, y))
    {
      assert Ref(t, x, y) == Ref(t, x, y);
    }
    if NoHoles(d, i) {
      forall n: nat | n * BSIZE < z ensures Ref(u, i, SlotOf(n)) != 0 {
        assert n < MAXFILE; assert n * BSIZE < d.inodes[i].size || off / BSIZE <= n < EndBlock(off, tot);
      }
    }
  }

  // ---- the log budget ----

  lemma {:induction false} FewerHoles(d: Disk, i: nat, a: nat, b: nat)
    requires a < b && Ref(d, i, SlotOf(a)) != 0
    ensures Holes(d, i, a, b) <= b - a - 1
    decreases b
  {
    hide Ref;
    if a + 1 < b { FewerHoles(d, i, a, b - 1); } else { assert Holes(d, i, a, a) == 0; }
  }

  /** A write of at most three blocks' worth of bytes, at any offset, fits in one transaction: it
      logs at most MAXOPBLOCKS distinct blocks, and at most seven with a single bitmap block. */
  lemma Budget(d: Disk, t: Disk, i: nat, off: nat, n: nat, logged: set<int>, maps: set<int>, allocs: nat, inode: int)
    requires NoHoles(d, i) && off <= d.inodes[i].size && n <= 3 * BSIZE
    requires Accounted(d, t, i, off / BSIZE, EndBlock(off, n), logged - (maps + {inode}), allocs) && |maps| <= allocs
    ensures |logged| <= MAXOPBLOCKS && (|maps| <= 1 ==> |logged| <= 7)
  {
    hide Ref, SlotOf;
    var a, b := off / BSIZE, EndBlock(off, n);
    if off % BSIZE != 0 && n > 0 {
      assert Ref(d, i, SlotOf(a)) != 0;
      FewerHoles(d, i, a, b);
    }
    assert allocs <= 4 && b - a <= 4;
    var data, table := FileBlocks(t, i, a, b), Just(Ref(t, i, NDIRECT));
    forall x | x in logged ensures x in maps + {inode} + table + data {
      assert x in maps + {inode} || x in logged - (maps + {inode});
    }
    SubsetSize(logged, maps + {inode} + table + data);
    UnionSize(maps + {inode} + table, data);
    UnionSize(maps + {inode}, table);
    UnionSize(maps, {inode});
  }

  // ---- files as byte sequences ----

  /** The contents of file `i`. */
  function Content(d: Disk, i: nat): (r: seq<int>)
    requires i < |d.inodes|
    ensures |r| == d.inodes[i].size && forall x :: 0 <= x < |r| ==> r[x] == ByteAt(d, i, x)
  {
    seq(d.inodes[i].size, x requires 0 <= x < d.inodes[i].size => ByteAt(d, i, x))
  }

  /** `data` over `c` from `off` on. */
  function Overlay(c: seq<int>, off: nat, data: seq<int>): seq<int>
    requires off <= |c|
  {
    c[..off] + data + if off + |data| < |c| then c[off + |data|..] else []
  }

  lemma OverlayNone(c: seq<int>, off: nat)
    ensures off <= |c| ==> Overlay(c, off, []) == c
  {
  }

  lemma OverlayMore(c: seq<int>, off: nat, src: seq<int>, k: nat, r: nat)
    requires off <= |c| && k + r <= |src|
    ensures off + k <= |Overlay(c, off, src[..k])|
    ensures Overlay(Overlay(c, off, src[..k]), off + k, src[k..k + r]) == Overlay(c, off, src[..k + r])
  {
  }

  lemma WrittenContent(d: Disk, t: Disk, i: nat, off: nat, data: seq<int>)
    requires Written(d, t, i, off, data) && i < |d.inodes| && off <= d.inodes[i].size
    requires forall f :: 0 <= f < |d.inodes| ==>
      t.inodes[f].size == if f == i && off + |data| > d.inodes[i].size then off + |data| else d.inodes[f].size
    requires forall f :: 0 <= f < |t.inodes| ==> t.inodes[f].size <= MAXFILE * BSIZE
    ensures Content(t, i) == Overlay(Content(d, i), off, data)
    ensures forall f :: 0 <= f < |d.inodes| && f != i ==> Content(t, f) == Content(d, f)
  {
    hide ByteAt;
    var c, o := Content(t, i), Overlay(Content(d, i), off, data);
    forall x | 0 <= x < |c| ensures c[x] == o[x] { assert ByteAt(t, i, x) == c[x]; }
    forall f | 0 <= f < |d.inodes| && f != i ensures Content(t, f) == Content(d, f) {
      forall x | 0 <= x < |Content(t, f)| ensures Content(t, f)[x] == Content(d, f)[x] {
        assert ByteAt(t, f, x) == ByteAt(d, f, x);
      }
    }
  }

  /** The first `k` addresses of inode `i` are cleared, and nothing else has changed. */
  ghost predicate Trimmed(d: Disk, t: Disk, i: nat, k: nat) {
    && t.blocks == d.blocks && |t.inodes| == |d.inodes| && i < |d.inodes|
      && |t.inodes[i].addrs| == |d.inodes[i].addrs| == 13
    && t.inodes[i].size == d.inodes[i].size
    && (forall f :: 0 <= f < |d.inodes| && f != i ==> t.inodes[f] == d.inodes[f])
    && forall y :: 0 <= y < 13 ==> t.inodes[i].addrs[y] == if y < k then 0 else d.inodes[i].addrs[y]
  }

  lemma InvIsBut(d: Disk, own: map<nat, Place>, lo: nat, hi: nat, i: nat)
    requires Inv(d, own, lo, hi)
    ensures InvBut(d, own, lo, hi, i, 0)
  {
    forall x: nat, y: nat | x < |d.inodes| && y < NSLOTS ensures RefOwned(d, own, x, y) {}
  }

  lemma RemainingNone(own: map<nat, Place>, i: nat)
    ensures Remaining(own, i, 0, 0) == own
  {
  }

  lemma AddrIsRef(d: Disk, i: nat, k: nat)
    requires i < |d.inodes| && |d.inodes[i].addrs| == 13 && k <= NDIRECT
    ensures Ref(d, i, k) == d.inodes[i].addrs[k]
  {
  }

  lemma NoTable(d: Disk, own: map<nat, Place>, was: map<nat, Place>, lo: nat, hi: nat, i: nat)
    requires Inv(d, own, lo, hi) && i < |d.inodes| && Ref(d, i, NDIRECT) == 0 && own == Remaining(was, i, NDIRECT, 0)
    ensures own == Remaining(was, i, 13, NINDIRECT)
  {
    forall b | b in own ensures own[b].inum != i { assert OwnRef(d, own, lo, b); }
  }

  lemma EntryIsRef(d: Disk, i: nat, j: nat)
    requires i < |d.inodes| && |d.inodes[i].addrs| == 13 && 0 < d.inodes[i].addrs[NDIRECT] < |d.blocks|
    ensures Ref(d, i, 13 + j) == WordAt(d.blocks[d.inodes[i].addrs[NDIRECT]], j)
  {
  }

  lemma UsedLessBut(d: Disk, own: map<nat, Place>, lo: nat, hi: nat, i: nat, n: nat, b: int)
    requires InvBut(d, own, lo, hi, i, n) && b in own
    ensures 0 <= b < hi && b in Used(own, lo, hi) && Used(own - {b}, lo, hi) == Used(own, lo, hi) - {b}
  {
    assert OwnRef(d, own, lo, b);
  }

  lemma NoBlockZeroBut(d: Disk, own: map<nat, Place>, lo: nat, hi: nat, i: nat, n: nat)
    requires InvBut(d, own, lo, hi, i, n)
    ensures own - {0} == own
  {
    assert OwnRef(d, own, lo, 0);
  }

  lemma NotMine(d: Disk, own: map<nat, Place>, lo: nat, hi: nat, i: nat)
    requires Inv(d, own, lo, hi)
    ensures forall b: nat :: b in Remaining(own, i, 13, NINDIRECT) <==> b in own && own[b].inum != i
  {
    forall b: nat | b in own ensures own[b].slot < NSLOTS { assert OwnRef(d, own, lo, b); }
  }

  lemma UsedLess(d: Disk, own: map<nat, Place>, lo: nat, hi: nat, b: nat)
    requires Inv(d, own, lo, hi) && b in own
    ensures b < hi && b in Used(own, lo, hi) && Used(own - {b}, lo, hi) == Used(own, lo, hi) - {b}
  {
    assert OwnRef(d, own, lo, b);
  }

  lemma NoBlockZero(d: Disk, own: map<nat, Place>, lo: nat, hi: nat)
    requires Inv(d, own, lo, hi)
    ensures own - {0} == own
  {
    assert OwnRef(d, own, lo, 0);
  }

  /** No block is left to allocate. */
  ghost predicate Full(own: map<nat, Place>, sb: Super) {
    forall x: nat :: x < Limit(sb) ==> x in Used(own, sb.nmeta, Limit(sb))
  }

  lemma NoneLeft(own: map<nat, Place>, sb: Super, b: nat)
    requires b <= Limit(sb) && forall x: nat :: x < b ==> x in Used(own, sb.nmeta, Limit(sb))
    requires b < Limit(sb) ==> sb.nmeta <= b && b !in own
    ensures Full(own, sb) <==> b == Limit(sb)
  {
    if b < Limit(sb) { assert b !in Used(own, sb.nmeta, Limit(sb)); }
  }

  /** Block `h` of file `i` is a hole that a read of `n` bytes from `off` on gets to: it lies in the
      range, and every block before it could be copied. */
  ghost predicate HoleAhead(d: Disk, i: nat, off: nat, n: nat, copies: nat -> bool, h: nat)
    requires i < |d.inodes|
  {
    && off / BSIZE <= h < EndBlock(off, n) && Ref(d, i, SlotOf(h)) == 0
    && forall k :: 0 <= k < h - off / BSIZE ==> copies(k)
  }

  /** The first `j` blocks from block `a` on are there and could be copied. */
  ghost predicate Passed(d: Disk, i: nat, a: nat, j: nat, copies: nat -> bool) {
    forall k: nat {:trigger CopiedAt(d, i, a, k, copies)} :: k < j ==> CopiedAt(d, i, a, k, copies)
  }

  ghost predicate CopiedAt(d: Disk, i: nat, a: nat, k: nat, copies: nat -> bool) {
    Ref(d, i, SlotOf(a + k)) != 0 && copies(k)
  }

  lemma PassedNone(d: Disk, i: nat, a: nat, copies: nat -> bool)
    ensures Passed(d, i, a, 0, copies)
  {}

  lemma PassedMore(d: Disk, i: nat, a: nat, j: nat, copies: nat -> bool)
    requires Passed(d, i, a, j, copies) && Ref(d, i, SlotOf(a + j)) != 0 && copies(j)
    ensures Passed(d, i, a, j + 1, copies)
  {
    hide Ref;
  }

  lemma HoleMet(d: Disk, i: nat, off: nat, n: nat, copies: nat -> bool, j: nat)
    requires i < |d.inodes| && Passed(d, i, off / BSIZE, j, copies) && Ref(d, i, SlotOf(off / BSIZE + j)) == 0
    requires off / BSIZE + j < EndBlock(off, n)
    ensures HoleAhead(d, i, off, n, copies, off / BSIZE + j)
  {
    hide Ref;
    forall k: nat | k < j ensures copies(k) { assert CopiedAt(d, i, off / BSIZE, k, copies); }
  }

  /** A copy that fails before any hole stops readi short of all of them. */
  lemma StoppedShort(d: Disk, i: nat, off: nat, n: nat, copies: nat -> bool, j: nat)
    requires i < |d.inodes| && Passed(d, i, off / BSIZE, j, copies)
    requires Ref(d, i, SlotOf(off / BSIZE + j)) != 0 && !copies(j)
    ensures !exists h: nat :: HoleAhead(d, i, off, n, copies, h)
  {
    hide Ref;
    var a := off / BSIZE;
    forall h: nat ensures !HoleAhead(d, i, off, n, copies, h) {
      assert a <= h < a + j ==> CopiedAt(d, i, a, h - a, copies);
    }
  }

  lemma ReadThrough(d: Disk, i: nat, off: nat, n: nat, copies: nat -> bool)
    requires i < |d.inodes|
    requires Passed(d, i, off / BSIZE, EndBlock(off, n) - off / BSIZE, copies)
    ensures !exists h: nat :: HoleAhead(d, i, off, n, copies, h)
  {
    hide Ref;
    var a := off / BSIZE;
    forall h: nat ensures !HoleAhead(d, i, off, n, copies, h) {
      assert a <= h < EndBlock(off, n) ==> CopiedAt(d, i, a, h - a, copies);
    }
  }

  lemma NoneAhead(d: Disk, i: nat, off: nat, n: nat, copies: nat -> bool)
    requires i < |d.inodes| && NoHoles(d, i) && off + n <= d.inodes[i].size
    ensures !exists h: nat :: HoleAhead(d, i, off, n, copies, h)
  {
    hide Ref;
  }

  /** A read of nothing gets to no block. */
  lemma NothingAhead(d: Disk, i: nat, off: nat, copies: nat -> bool)
    requires i < |d.inodes|
    ensures !exists h: nat :: HoleAhead(d, i, off, 0, copies, h)
  {
    hide Ref;
  }

  /** readi calls log_write: it gets to a hole, and balloc finds a block for it. */
  ghost predicate NeedsTransaction(d: Disk, own: map<nat, Place>, sb: Super, i: nat, off: nat, n: nat,
          copies: nat -> bool)
    requires i < |d.inodes|
  {
    && off + n < 0x1_0000_0000 && !Full(own, sb)
    && exists h: nat :: HoleAhead(d, i, off, Clipped(d, i, off, n), copies, h)
  }

  /** A file without holes never needs one to be read. */
  lemma HolesNeeded(d: Disk, own: map<nat, Place>, sb: Super, i: nat, off: nat, n: nat, copies: nat -> bool)
    requires i < |d.inodes|
    ensures NoHoles(d, i) ==> !NeedsTransaction(d, own, sb, i, off, n, copies)
  {
    hide Ref, HoleAhead, NoHoles;
    NothingAhead(d, i, off, copies);
    if NoHoles(d, i) && off <= d.inodes[i].size { NoneAhead(d, i, off, Clipped(d, i, off, n), copies); }
  }

  /** The bitmap block of a block's bit is the one its byte is in. */
  lemma SameBitmapBlock(b: nat)
    ensures b / 8 / 1024 == b / BPB
  {}

  class Fs {
    const sb: Super
    var d: Disk               // blocks and in-memory inodes
    var dinodes: seq<Inode>   // inodes as they are in the inode blocks
    var bitmap: seq<bv8>      // the bitmap blocks, one after the other
    ghost var own: map<nat, Place>
    ghost var logged: set<int>  // blocks passed to log_write in this transaction
    ghost var maps: set<int>    // bitmap blocks among them that were logged to allocate
    ghost var allocs: nat       // blocks allocated in this transaction

    ghost predicate Valid()
      reads this
    {
      && sb.nmeta <= Limit(sb) && Inv(d, own, sb.nmeta, Limit(sb)) && |dinodes| == |d.inodes|
      && Shows(bitmap, Limit(sb), Used(own, sb.nmeta, Limit(sb))) && |maps| <= allocs && maps <= {sb.bmapstart as int}
    }

    /** A mounted image. */
    constructor (sb: Super, d: Disk, bitmap: seq<bv8>, ghost own: map<nat, Place>)
      requires sb.nmeta <= Limit(sb) && Inv(d, own, sb.nmeta, Limit(sb))
      requires Shows(bitmap, Limit(sb), Used(own, sb.nmeta, Limit(sb)))
      ensures Valid() && this.sb == sb && this.d == d && dinodes == d.inodes && this.bitmap == bitmap && this.own == own
    {
      this.sb, this.d, this.dinodes, this.bitmap, this.own := sb, d, d.inodes, bitmap, own;
      logged, maps, allocs := {}, {}, 0;
    }

    function BBlock(b: nat): nat { b / BPB + sb.bmapstart }

    /** kernel/fs.c:82-95: the first clear bit, or the limit. */
    method FindFree(limit: nat) returns (b: nat)
      requires Shows(bitmap, limit, Used(own, sb.nmeta, limit))
      ensures b <= limit && (forall x: nat :: x < b ==> x in Used(own, sb.nmeta, limit))
      ensures b < limit ==> sb.nmeta <= b && b !in own && b !in Used(own, sb.nmeta, limit)
    {
      hide Shows, Bit, Used, Mask, SetBit;
      var base := 0;
      while base < limit
        invariant base % BPB == 0
        invariant forall x: nat :: x < base && x < limit ==> x in Used(own, sb.nmeta, limit)
        decreases limit - base
      {
        var bi := 0;
        while bi < BPB && base + bi < limit
          invariant 0 <= bi <= BPB && base + bi <= limit
          invariant forall x: nat :: x < base + bi ==> x in Used(own, sb.nmeta, limit)
        {
          LookAt(bitmap, own, sb.nmeta, limit, base, bi);
          if bitmap[base / 8 + bi / 8] & Mask(bi % 8) == 0 { return base + bi; }
          bi := bi + 1;
        }
        base := base + BPB;
      }
      b := limit;
    }

    /** kernel/fs.c:68-99, with bzero. */
    method Balloc() returns (b: nat)
      requires Valid()
      modifies this`d, this`bitmap, this`logged, this`maps, this`allocs
      ensures b == 0 ==>
        d == old(d) && bitmap == old(bitmap) && logged == old(logged) && maps == old(maps) && allocs == old(allocs)
      ensures b == 0 <==> Full(own, sb)
      ensures b != 0 ==> sb.nmeta <= b < Limit(sb) && b !in own && forall x: nat :: x < b ==>
        x in Used(own, sb.nmeta, Limit(sb))
      ensures b != 0 ==> d == Zeroed(old(d), b) && Shows(bitmap, Limit(sb), Used(own, sb.nmeta, Limit(sb)) + {b})
      ensures b != 0 ==>
        logged == old(logged) + {BBlock(b), b} && maps == old(maps) + {BBlock(b)} && allocs == old(allocs) + 1
      ensures old(logged) <= logged && Recorded(old(d), old(bitmap), d, bitmap, sb.bmapstart, logged)
    {
      hide Inv, Shows, Used, Bit, Mask, Full, Recorded;
      var limit := if SWAPBASE > sb.size then sb.size else SWAPBASE;
      b := FindFree(limit);
      NoneLeft(own, sb, b);
      if b == limit {
        RecordedNone(d, d, bitmap, sb.bmapstart, logged);
        return 0;
      }
      DataBlock(d, own, bitmap, sb.nmeta, limit, b);
      ShowsSet(bitmap, limit, Used(own, sb.nmeta, limit), b);
      bitmap := bitmap[b / 8 := bitmap[b / 8] | Mask(b % 8)];
      logged := logged + {BBlock(b), b};
      maps := maps + {BBlock(b)};
      allocs := allocs + 1;
      d := d.(blocks := d.blocks[b := Zeros()]);
      SameBitmapBlock(b);
      RecordedOne(old(d), old(bitmap), d, bitmap, sb.bmapstart, logged, b, b / 8);
    }

    /** kernel/fs.c:104-118; the bit must be set, or bfree panics. */
    method Bfree(b: nat, ghost used: set<nat>)
      requires b < Limit(sb) && Shows(bitmap, Limit(sb), used) && b in used
      modifies this`bitmap, this`logged
      ensures Shows(bitmap, Limit(sb), used - {b})
      ensures old(logged) <= logged && Recorded(d, old(bitmap), d, bitmap, sb.bmapstart, logged)
    {
      hide Shows, Bit, Used, Mask, Recorded;
      var bi := b % BPB;
      BitPlace(bitmap, used, Limit(sb), b);
      ShowsClear(bitmap, Limit(sb), used, b);
      bitmap := bitmap[b / 8 := bitmap[b / 8] & !Mask(bi % 8)];
      logged := logged + {BBlock(b)};
      SameBitmapBlock(b);
      RecordedBits(d, old(bitmap), bitmap, sb.bmapstart, logged, b / 8);
    }

    /** The part of bmap that fills an empty direct address, or that of the indirect block. */
    method FillAddr(i: nat, k: nat) returns (addr: nat)
      requires Valid() && i < |d.inodes| && k <= NDIRECT && Ref(d, i, k) == 0
      modifies this`d, this`bitmap, this`own, this`logged, this`maps, this`allocs
      ensures Valid() && addr == Ref(d, i, k) && Grows(old(d), d, i, k)
      ensures (k != NDIRECT ==> Ref(d, i, NDIRECT) == old(Ref(d, i, NDIRECT)))
      ensures addr == 0 ==>
        d == old(d) && bitmap == old(bitmap) && own == old(own) && logged == old(logged) && Full(own, sb)
      ensures addr == 0 <==> Full(old(own), sb)
      ensures maps >= old(maps) && logged <= old(logged) + maps + Just(addr)
      ensures allocs == old(allocs) + Filled(old(d), d, i, k)
      ensures old(logged) <= logged && Recorded(old(d), old(bitmap), d, bitmap, sb.bmapstart, logged)
    {
      hide Inv, Shaped, Ref, Shows, Attached, Used, Grows, Recorded;
      addr := Balloc();
      if addr == 0 { GrowsNot(d, i, k); return; }
      ghost var d0 := old(d);
      AttachAddr(d0, own, sb.nmeta, Limit(sb), i, k, addr);
      AddrShape(d0, own, sb.nmeta, Limit(sb), i);
      ghost var mid := d;
      d := d.(inodes := d.inodes[i := d.inodes[i].(addrs := d.inodes[i].addrs[k := addr])]);
      RecordedNone(mid, d, bitmap, sb.bmapstart, logged);
      RecordedTwice(d0, old(bitmap), mid, bitmap, d, bitmap, sb.bmapstart, logged, logged);
      Gained(d0, d, own, sb.nmeta, Limit(sb), i, k, addr);
      own := own[addr := Place(i, k)];
    }

    /** The part of bmap that fills an empty entry of the indirect block. */
    method FillEntry(i: nat, j: nat) returns (addr: nat)
      requires Valid() && i < |d.inodes| && j < NINDIRECT && Ref(d, i, NDIRECT) != 0 && Ref(d, i, 13 + j) == 0
      modifies this`d, this`bitmap, this`own, this`logged, this`maps, this`allocs
      ensures Valid() && addr == Ref(d, i, 13 + j) && Grows(old(d), d, i, 13 + j)
      ensures Ref(d, i, NDIRECT) == old(Ref(d, i, NDIRECT))
      ensures addr == 0 ==>
        d == old(d) && bitmap == old(bitmap) && own == old(own) && logged == old(logged) && Full(own, sb)
      ensures addr == 0 <==> Full(old(own), sb)
      ensures maps >= old(maps) && logged <= old(logged) + maps + Just(addr) + Just(Ref(d, i, NDIRECT))
      ensures allocs == old(allocs) + Filled(old(d), d, i, 13 + j)
      ensures old(logged) <= logged && Recorded(old(d), old(bitmap), d, bitmap, sb.bmapstart, logged)
    {
      hide Inv, Shaped, Shows, Attached, Used, Grows, WordAt, Recorded;
      addr := Balloc();
      if addr == 0 { GrowsNot(d, i, 13 + j); return; }
      ghost var d0 := old(d);
      AttachEntry(d0, own, sb.nmeta, Limit(sb), i, j, addr);
      AddrShape(d0, own, sb.nmeta, Limit(sb), i);
      var a := d.inodes[i].addrs[NDIRECT];
      ghost var mid, some := d, logged;
      d := d.(blocks := d.blocks[a := PutWord(d.blocks[a], j, addr)]);
      logged := logged + {a};
      RecordedBlock(mid, d, bitmap, sb.bmapstart, logged, a);
      RecordedTwice(d0, old(bitmap), mid, bitmap, d, bitmap, sb.bmapstart, some, logged);
      Gained(d0, d, own, sb.nmeta, Limit(sb), i, 13 + j, addr);
      own := own[addr := Place(i, 13 + j)];
    }

    /** kernel/fs.c:395-434. */
    method Bmap(i: nat, n: nat) returns (addr: nat)
      requires Valid() && i < |d.inodes| && n < MAXFILE
      modifies this`d, this`bitmap, this`own, this`logged, this`maps, this`allocs
      ensures Valid() && addr == Ref(d, i, SlotOf(n)) && Grows(old(d), d, i, SlotOf(n))
      ensures old(Ref(d, i, SlotOf(n))) != 0 ==>
        d == old(d) && bitmap == old(bitmap) && own == old(own) && logged == old(logged)
      ensures addr == 0 ==> Full(own, sb)
      ensures maps >= old(maps) && logged <= old(logged) + maps + Just(addr) + Just(Ref(d, i, NDIRECT))
      ensures allocs == old(allocs) + Filled(old(d), d, i, SlotOf(n)) + Filled(old(d), d, i, NDIRECT)
      ensures allocs > old(allocs) <==> old(Ref(d, i, SlotOf(n))) == 0 && !Full(old(own), sb)
      ensures allocs == old(allocs) ==> d == old(d) && bitmap == old(bitmap) && own == old(own) && logged == old(logged)
      ensures old(logged) <= logged && Recorded(old(d), old(bitmap), d, bitmap, sb.bmapstart, logged)
    {
      hide Inv, Shaped, Shows, Used, Grows, WordAt, Full, Recorded;
      RecordedNone(d, d, bitmap, sb.bmapstart, logged);
      AddrShape(d, own, sb.nmeta, Limit(sb), i);
      GrowsNot(d, i, SlotOf(n));
      GrowsNot(d, i, NDIRECT);
      RefIsNat(d, own, sb.nmeta, Limit(sb), i, SlotOf(n));
      if n < NDIRECT {
        if d.inodes[i].addrs[n] != 0 { return d.inodes[i].addrs[n]; }
        addr := FillAddr(i, n);
        return;
      }
      var j := n - NDIRECT;
      if d.inodes[i].addrs[NDIRECT] == 0 {
        var a := FillAddr(i, NDIRECT);
        if a == 0 { return 0; }
      }
      ghost var mid, bm, some := d, bitmap, logged;
      NewTable(old(d), mid, own, sb.nmeta, Limit(sb), i, 13 + j);
      var entry := WordAt(d.blocks[d.inodes[i].addrs[NDIRECT]], j);
      if entry != 0 { return entry; }
      addr := FillEntry(i, j);
      RecordedTwice(old(d), old(bitmap), mid, bm, d, bitmap, sb.bmapstart, some, logged);
      GrowsTwice(old(d), mid, d, i, 13 + j);
    }

    /** kernel/fs.c:530-540: one block of writei; `copied` tells whether the bytes could be read. */
    method WriteBlock(i: nat, off: nat, data: seq<int>, copied: bool) returns (ok: bool, ghost mid: Disk)
      requires Valid() && i < |d.inodes| && off / BSIZE < MAXFILE && off % BSIZE + |data| <= BSIZE
      modifies this`d, this`bitmap, this`own, this`logged, this`maps, this`allocs
      ensures Valid() && Grows(old(d), mid, i, SlotOf(off / BSIZE)) && Inv(mid, own, sb.nmeta, Limit(sb))
      ensures i < |mid.inodes|
      ensures !ok ==> d == mid && (!copied || (Full(own, sb) && Ref(d, i, SlotOf(off / BSIZE)) == 0))
      ensures ok ==> copied && var a := Ref(mid, i, SlotOf(off / BSIZE));
        0 < a < |mid.blocks| && |mid.blocks[a]| == BSIZE && d == Stored(mid, a, off % BSIZE, data) && SameRefs(mid, d)
      ensures maps >= old(maps)
      ensures logged <= old(logged) + maps + Just(Ref(d, i, SlotOf(off / BSIZE))) + Just(Ref(d, i, NDIRECT))
      ensures allocs == old(allocs) + Filled(old(d), mid, i, SlotOf(off / BSIZE)) + Filled(old(d), mid, i, NDIRECT)
      ensures Ref(d, i, SlotOf(off / BSIZE)) == Ref(mid, i, SlotOf(off / BSIZE))
      ensures Ref(d, i, NDIRECT) == Ref(mid, i, NDIRECT)
      ensures old(logged) <= logged && Recorded(old(d), old(bitmap), d, bitmap, sb.bmapstart, logged)
    {
      hide Inv, Shaped, Shows, Used, Ref, SameFiles, RefsStay, OnlySlot, Recorded;
      var addr := Bmap(i, off / BSIZE);
      mid := d;
      ok := false;
      SameLength(old(d), d, i, SlotOf(off / BSIZE));
      if addr == 0 { return; }
      if !copied { return; }
      StoredInv(d, own, sb.nmeta, Limit(sb), i, off / BSIZE, off % BSIZE, data);
      StoredRefs(d, own, sb.nmeta, Limit(sb), i, off / BSIZE, off % BSIZE, data);
      ghost var some := logged;
      d := d.(blocks := d.blocks[addr := Splice(d.blocks[addr], off % BSIZE, data)]);
      logged := logged + {addr};
      RecordedBlock(mid, d, bitmap, sb.bmapstart, logged, addr);
      RecordedTwice(old(d), old(bitmap), mid, bitmap, d, bitmap, sb.bmapstart, some, logged);
      ok := true;
    }

    /** kernel/fs.c:445-450: the direct blocks. */
    method FreeDirect(i: nat)
      requires Valid() && i < |d.inodes|
      modifies this`d, this`bitmap, this`own, this`logged
      ensures Valid() && own == Remaining(old(own), i, NDIRECT, 0) && Trimmed(old(d), d, i, NDIRECT)
      ensures old(logged) <= logged && Recorded(old(d), old(bitmap), d, bitmap, sb.bmapstart, logged)
    {
      hide Inv, Shows, Used, Ref, Remaining, Recorded;
      RecordedNone(d, d, bitmap, sb.bmapstart, logged);
      ghost var was := own;
      var k := 0;
      AddrShape(d, own, sb.nmeta, Limit(sb), i);
      RemainingNone(was, i);
      while k < NDIRECT
        invariant 0 <= k <= NDIRECT && Valid() && own == Remaining(was, i, k, 0) && Trimmed(old(d), d, i, k)
        invariant old(logged) <= logged && Recorded(old(d), old(bitmap), d, bitmap, sb.bmapstart, logged)
      {
        AddrShape(d, own, sb.nmeta, Limit(sb), i);
        AddrIsRef(d, i, k);
        RefIsNat(d, own, sb.nmeta, Limit(sb), i, k);
        InvIsBut(d, own, sb.nmeta, Limit(sb), i);
        RemainingAddr(d, was, sb.nmeta, Limit(sb), i, k, 0);
        if d.inodes[i].addrs[k] != 0 {
          DetachAddr(d, own, sb.nmeta, Limit(sb), i, k);
          UsedLess(d, own, sb.nmeta, Limit(sb), d.inodes[i].addrs[k]);
          ghost var before, bm, some := d, bitmap, logged;
          Bfree(d.inodes[i].addrs[k], Used(own, sb.nmeta, Limit(sb)));
          own := own - {d.inodes[i].addrs[k] as nat};
          d := d.(inodes := d.inodes[i := d.inodes[i].(addrs := d.inodes[i].addrs[k := 0])]);
          RecordedTwice(old(d), old(bitmap), before, bm, before, bitmap, sb.bmapstart, some, logged);
          RecordedNone(before, d, bitmap, sb.bmapstart, logged);
          RecordedTwice(old(d), old(bitmap), before, bitmap, d, bitmap, sb.bmapstart, logged, logged);
        } else {
          NoBlockZero(d, own, sb.nmeta, Limit(sb));
        }
        k := k + 1;
      }
    }

    /** kernel/fs.c:452-462: the indirect block and what it lists. */
    method FreeIndirect(i: nat, ghost was: map<nat, Place>)
      requires Valid() && i < |d.inodes| && own == Remaining(was, i, NDIRECT, 0)
      modifies this`d, this`bitmap, this`own, this`logged
      ensures Valid() && own == Remaining(was, i, 13, NINDIRECT)
      ensures |d.inodes| == |old(d).inodes| && |d.inodes[i].addrs| == 13 == |old(d).inodes[i].addrs|
      ensures d == SetAddr(old(d), i, NDIRECT, 0)
      ensures old(logged) <= logged && Recorded(old(d), old(bitmap), d, bitmap, sb.bmapstart, logged)
    {
      hide Inv, InvBut, Shows, Used, Ref, Remaining, WordAt, Recorded;
      RecordedNone(d, d, bitmap, sb.bmapstart, logged);
      AddrShape(d, own, sb.nmeta, Limit(sb), i);
      AddrIsRef(d, i, NDIRECT);
      InvIsBut(d, own, sb.nmeta, Limit(sb), i);
      if d.inodes[i].addrs[NDIRECT] == 0 {
        assert d.inodes[i].addrs == d.inodes[i].addrs[NDIRECT := 0];
        assert d.inodes == d.inodes[i := d.inodes[i]];
        NoTable(d, own, was, sb.nmeta, Limit(sb), i);
        return;
      }
      RefIsNat(d, own, sb.nmeta, Limit(sb), i, NDIRECT);
      var a := d.blocks[d.inodes[i].addrs[NDIRECT]];
      var j := 0;
      while j < NINDIRECT
        invariant 0 <= j <= NINDIRECT && d == old(d) && own == Remaining(was, i, NDIRECT, j)
        invariant old(logged) <= logged && Recorded(old(d), old(bitmap), d, bitmap, sb.bmapstart, logged)
        invariant InvBut(d, own, sb.nmeta, Limit(sb), i, j) && Shows(bitmap, Limit(sb), Used(own, sb.nmeta, Limit(sb)))
      {
        ReleaseEntry(d, was, sb.nmeta, Limit(sb), i, j);
        EntryIsRef(d, i, j);
        if WordAt(a, j) != 0 {
          UsedLessBut(d, own, sb.nmeta, Limit(sb), i, j, WordAt(a, j));
          ghost var bm, some := bitmap, logged;
          Bfree(WordAt(a, j), Used(own, sb.nmeta, Limit(sb)));
          RecordedTwice(d, old(bitmap), d, bm, d, bitmap, sb.bmapstart, some, logged);
        } else {
          NoBlockZeroBut(d, own, sb.nmeta, Limit(sb), i, j);
        }
        own := Remaining(was, i, NDIRECT, j + 1);
        j := j + 1;
      }
      DetachTable(d, was, sb.nmeta, Limit(sb), i);
      UsedLessBut(d, own, sb.nmeta, Limit(sb), i, j, d.inodes[i].addrs[NDIRECT]);
      ghost var bm, some := bitmap, logged;
      Bfree(d.inodes[i].addrs[NDIRECT], Used(own, sb.nmeta, Limit(sb)));
      RecordedTwice(d, old(bitmap), d, bm, d, bitmap, sb.bmapstart, some, logged);
      own := Remaining(was, i, 13, NINDIRECT);
      d := d.(inodes := d.inodes[i := d.inodes[i].(addrs := d.inodes[i].addrs[NDIRECT := 0])]);
      RecordedNone(old(d), d, bitmap, sb.bmapstart, logged);
      RecordedTwice(old(d), old(bitmap), old(d), bitmap, d, bitmap, sb.bmapstart, logged, logged);
    }

    /** kernel/fs.c:438-466: gives back exactly the blocks of inode `i`. */
    method Itrunc(i: nat)
      requires Valid() && i < |d.inodes|
      modifies this`d, this`dinodes, this`bitmap, this`own, this`logged
      ensures Valid() && d.blocks == old(d).blocks && |d.inodes| == |old(d).inodes|
      ensures d.inodes[i].size == 0 && |d.inodes[i].addrs| == 13
      ensures forall k :: 0 <= k < 13 ==> d.inodes[i].addrs[k] == 0
      ensures forall f :: 0 <= f < |d.inodes| && f != i ==> d.inodes[f] == old(d).inodes[f]
      ensures forall b: nat :: b in own <==> b in old(own) && old(own)[b].inum != i
      ensures dinodes == old(dinodes)[i := d.inodes[i]]
      ensures old(logged) <= logged && Recorded(old(d), old(bitmap), d, bitmap, sb.bmapstart, logged)
      ensures IBlock(i) in logged
    {
      hide Inv, Shows, Used, Ref, Remaining, Recorded;
      ghost var was := own;
      NotMine(d, own, sb.nmeta, Limit(sb), i);
      FreeDirect(i);
      ghost var mid, bm, some := d, bitmap, logged;
      FreeIndirect(i, was);
      RecordedTwice(old(d), old(bitmap), mid, bm, d, bitmap, sb.bmapstart, some, logged);
      mid, some := d, logged;
      ResizedOk(d, own, sb.nmeta, Limit(sb), i, 0);
      d := d.(inodes := d.inodes[i := d.inodes[i].(size := 0)]);
      dinodes := dinodes[i := d.inodes[i]];
      logged := logged + {IBlock(i)};
      RecordedNone(mid, d, bitmap, sb.bmapstart, logged);
      RecordedTwice(old(d), old(bitmap), mid, bitmap, d, bitmap, sb.bmapstart, some, logged);
    }

    /** kernel/fs.c:494-507: the loop of readi. */
    method ReadBlocks(i: nat, off0: nat, n: nat, copies: nat -> bool) returns (tot: int, dst: seq<int>)
      requires Valid() && i < |d.inodes| && off0 + n <= d.inodes[i].size <= MAXFILE * BSIZE
      modifies this`d, this`bitmap, this`own, this`logged, this`maps, this`allocs
      ensures Valid() && SameFiles(old(d), d) && -1 <= tot <= n && allocs >= old(allocs)
      ensures tot >= 0 ==> dst == Slice(old(d), i, off0, tot)
      ensures tot < 0 ==> Fails(copies, Span(off0, n))
      ensures tot == n ==> !Fails(copies, Span(off0, n))
      ensures 0 <= tot < n ==> Full(own, sb)
      ensures allocs == old(allocs) ==> d == old(d) && bitmap == old(bitmap) && own == old(own) && logged == old(logged)
      ensures allocs > old(allocs) <==> !Full(old(own), sb) && exists h: nat :: HoleAhead(old(d), i, off0, n, copies, h)
      ensures 0 <= tot < n && allocs == old(allocs) ==> exists h: nat :: HoleAhead(old(d), i, off0, n, copies, h)
      ensures old(logged) <= logged && Recorded(old(d), old(bitmap), d, bitmap, sb.bmapstart, logged)
    {
      hide Inv, Shows, Used, Ref, SameFiles, RefsStay, OnlySlot, InBlock, Slice, Full, Grows, Filled, HoleAhead, Passed,
           Just, Recorded, Fails;
      RecordedNone(d, d, bitmap, sb.bmapstart, logged);
      NoneFails(copies);
      var off, j := off0, 0;
      tot, dst := 0, [];
      NoneRead(d, i, off0);
      PassedNone(d, i, off0 / BSIZE, copies);
      while tot < n
        invariant 0 <= tot <= n && off == off0 + tot && Valid() && SameFiles(old(d), d) && |d.inodes| == |old(d).inodes|
        invariant dst == Slice(old(d), i, off0, tot)
        invariant old(logged) <= logged && Recorded(old(d), old(bitmap), d, bitmap, sb.bmapstart, logged)
        invariant !Fails(copies, j)
        invariant off0 / BSIZE + j == if tot < n then off / BSIZE else EndBlock(off0, n)
        invariant allocs == old(allocs) ==>
          d == old(d) && bitmap == old(bitmap) && own == old(own) && logged == old(logged)
        invariant allocs == old(allocs) ==> Passed(old(d), i, off0 / BSIZE, j, copies)
        invariant allocs >= old(allocs)
        invariant allocs > old(allocs) ==>
          !Full(old(own), sb) && exists h: nat :: HoleAhead(old(d), i, off0, n, copies, h)
        decreases n - tot
      {
        ChunkArith(off0, n, tot, off / BSIZE);
        var m := Chunk(off, n - tot);
        ghost var before, bm, some, allocs0 := d, bitmap, logged, allocs;
        var addr := Bmap(i, off / BSIZE);
        ReadOn(old(d), before, d, i, off / BSIZE);
        RecordedTwice(old(d), old(bitmap), before, bm, d, bitmap, sb.bmapstart, some, logged);
        if allocs0 == old(allocs) && Ref(before, i, SlotOf(off / BSIZE)) == 0 {
          HoleMet(old(d), i, off0, n, copies, j);
        }
        if addr == 0 { break; }
        if !copies(j) {
          if allocs == old(allocs) { StoppedShort(old(d), i, off0, n, copies, j); }
          FailsAt(copies, j, Span(off0, n));
          tot := -1;
          return;
        }
        BlockShape(d, own, sb.nmeta, Limit(sb), i, off / BSIZE);
        SliceMore(old(d), d, i, off0, tot, m, addr);
        dst := dst + d.blocks[addr][off % BSIZE..off % BSIZE + m];
        if allocs == old(allocs) { PassedMore(old(d), i, off0 / BSIZE, j, copies); }
        NextCopied(copies, j);
        tot, off, j := tot + m, off + m, j + 1;
      }
      if tot == n && allocs == old(allocs) { ReadThrough(old(d), i, off0, n, copies); }
    }

    /** kernel/fs.c:484-509. `dst` is what reaches the caller. readi calls log_write, and so must be
        in a transaction, exactly when it gets to a hole and the disk is not full. */
    method ReadI(i: nat, off0: nat, n0: nat, copies: nat -> bool) returns (tot: int, dst: seq<int>)
      requires Valid() && i < |d.inodes| && off0 < 0x1_0000_0000 && n0 < 0x1_0000_0000
      modifies this`d, this`bitmap, this`own, this`logged, this`maps, this`allocs
      ensures Valid() && SameFiles(old(d), d)
      ensures off0 > old(d).inodes[i].size || off0 + n0 >= 0x1_0000_0000 ==> tot == 0 && d == old(d)
      ensures tot >= 0 ==> dst == Slice(old(d), i, off0, tot) && tot <= Clipped(old(d), i, off0, n0)
      ensures tot < 0 ==> tot == -1 && Fails(copies, Span(off0, Clipped(old(d), i, off0, n0)))
      ensures off0 + n0 < 0x1_0000_0000 && 0 <= tot < Clipped(old(d), i, off0, n0) ==> Full(own, sb)
      ensures off0 + n0 < 0x1_0000_0000 && tot == Clipped(old(d), i, off0, n0) ==>
        !Fails(copies, Span(off0, Clipped(old(d), i, off0, n0)))
      ensures NoHoles(old(d), i) ==> d == old(d) && bitmap == old(bitmap) && own == old(own) && logged == old(logged)
      ensures NoHoles(old(d), i) && off0 + n0 < 0x1_0000_0000 ==> var c := Clipped(old(d), i, off0, n0);
        tot == if Fails(copies, Span(off0, c)) then -1 else c
      ensures allocs >= old(allocs)
      ensures allocs > old(allocs) <==> NeedsTransaction(old(d), old(own), sb, i, off0, n0, copies)
      ensures allocs == old(allocs) ==> d == old(d) && bitmap == old(bitmap) && own == old(own) && logged == old(logged)
      ensures old(logged) <= logged && Recorded(old(d), old(bitmap), d, bitmap, sb.bmapstart, logged)
    {
      hide Inv, Shows, Used, Ref, SameFiles, Slice, Full, NoHoles, HoleAhead, Recorded, Fails;
      RecordedNone(d, d, bitmap, sb.bmapstart, logged);
      NoneFails(copies);
      var size := d.inodes[i].size;
      var end := (off0 + n0) % 0x1_0000_0000;
      SizeFits(d, own, sb.nmeta, Limit(sb), i);
      NoneRead(d, i, off0);
      NothingAhead(d, i, off0, copies);
      if off0 > size || end < off0 {
        assert off0 > size ==> Clipped(d, i, off0, n0) == 0;
        return 0, [];
      }
      var n := if end > size then size - off0 else n0;
      assert n == Clipped(d, i, off0, n0);
      tot, dst := ReadBlocks(i, off0, n, copies);
      if NoHoles(old(d), i) { NoneAhead(old(d), i, off0, n, copies); }
    }

    /** kernel/file.c:117-121: fileread of an inode opens no transaction. With no operation of another
        process outstanding, its log_write panics (kernel/log.c:222-223). */
    method FileRead(i: nat, off: nat, n: nat, copies: nat -> bool, outstanding: nat)
      returns (r: int, dst: seq<int>, next: nat, ghost panics: bool)
      requires Valid() && i < |d.inodes| && off < 0x1_0000_0000 && n < 0x1_0000_0000
      modifies this`d, this`bitmap, this`own, this`logged, this`maps, this`allocs
      ensures Valid() && SameFiles(old(d), d)
      ensures panics <==> outstanding == 0 && NeedsTransaction(old(d), old(own), sb, i, off, n, copies)
      ensures NoHoles(old(d), i) ==> !panics && d == old(d)
      ensures r >= 0 ==> dst == Slice(old(d), i, off, r) && next == off + r
      ensures old(logged) <= logged && Recorded(old(d), old(bitmap), d, bitmap, sb.bmapstart, logged)
      ensures r < 0 ==> r == -1 && next == off && Fails(copies, Span(off, Clipped(old(d), i, off, n)))
      ensures off > old(d).inodes[i].size || off + n >= 0x1_0000_0000 ==> r == 0 && d == old(d)
      ensures off + n < 0x1_0000_0000 && r >= 0 ==> r == Clipped(old(d), i, off, n) || Full(own, sb)
      ensures NoHoles(old(d), i) && off + n < 0x1_0000_0000 ==> var c := Clipped(old(d), i, off, n);
        r == if Fails(copies, Span(off, c)) then -1 else c
    {
      hide Inv, Shows, Used, Ref, SameFiles, Slice, Full, NoHoles, HoleAhead, NeedsTransaction, Recorded, Fails;
      r, dst := ReadI(i, off, n, copies);
      panics := outstanding == 0 && allocs > old(allocs);
      HolesNeeded(old(d), old(own), sb, i, off, n, copies);
      next := if r > 0 then off + r else off;
    }

    function IBlock(i: nat): nat { i / IPB + sb.inodestart }

    /** kernel/fs.c:543-549, with iupdate. */
    method GrowSize(i: nat, off: nat)
      requires Valid() && i < |d.inodes| && off <= MAXFILE * BSIZE
      modifies this`d, this`dinodes, this`logged
      ensures Valid() && d == Resized(old(d), i, if off > old(d).inodes[i].size then off else old(d).inodes[i].size)
      ensures dinodes == old(dinodes)[i := d.inodes[i]] && logged == old(logged) + {IBlock(i)}
    {
      hide Inv, Shows, Used;
      SizeFits(d, own, sb.nmeta, Limit(sb), i);
      ResizedOk(d, own, sb.nmeta, Limit(sb), i, if off > d.inodes[i].size then off else d.inodes[i].size);
      assert d == Resized(d, i, d.inodes[i].size);
      if off > d.inodes[i].size {
        d := d.(inodes := d.inodes[i := d.inodes[i].(size := off)]);
      }
      dinodes := dinodes[i := d.inodes[i]];
      logged := logged + {IBlock(i)};
    }

    /** kernel/fs.c:529-541: the loop of writei. */
    method WriteBlocks(i: nat, src: seq<int>, off0: nat, copies: nat -> bool) returns (tot: nat)
      requires Valid() && i < |d.inodes| && off0 + |src| <= MAXFILE * BSIZE
      modifies this`d, this`bitmap, this`own, this`logged, this`maps, this`allocs
      ensures Valid() && |d.inodes| == |old(d).inodes| && tot <= |src|
      ensures tot < |src| ==> Full(own, sb) || Fails(copies, Span(off0, |src|))
      ensures tot == |src| ==> !Fails(copies, Span(off0, |src|))
      ensures maps >= old(maps)
      ensures Wrote(old(d), d, i, off0, src, tot, logged - (old(logged) + maps), allocs - old(allocs))
      ensures old(logged) <= logged && Recorded(old(d), old(bitmap), d, bitmap, sb.bmapstart, logged)
    {
      hide Inv, Shaped, Shows, Used, Ref, ByteAt, SameFiles, RefsStay, OnlySlot, Through, Written, SameRefs,
           Accounted, SlotOf, Full, SameSizes, Writing, Grows, Stored, EndBlock, Filled, Just, Recorded, Fails;
      RecordedNone(d, d, bitmap, sb.bmapstart, logged);
      NoneFails(copies);
      SpanNone(off0);
      var off, j := off0, 0;
      tot := 0;
      ghost var d0, log0, mem0, next: nat := d, logged, allocs, off0 / BSIZE;
      WriteStart(d, i, off0, src);
      assert logged - (log0 + maps) == {};
      while tot < |src|
        invariant Valid() && |d.inodes| == |d0.inodes| && off == off0 + tot && tot <= |src| && maps >= old(maps)
        invariant tot < |src| ==> next == off / BSIZE
        invariant old(logged) <= logged && Recorded(old(d), old(bitmap), d, bitmap, sb.bmapstart, logged)
        invariant !Fails(copies, j) && off0 / BSIZE + j == next && (tot == |src| ==> j == Span(off0, |src|))
        invariant Writing(d0, d, i, off0, src, tot, next, logged - (log0 + maps), allocs - mem0)
        decreases |src| - tot
      {
        var m := Chunk(off, |src| - tot);
        ChunkArith(off0, |src|, tot, next);
        ghost var before, bm, some, news, mem := d, bitmap, logged, logged - (log0 + maps), allocs - mem0;
        var ok;
        ghost var mid;
        ok, mid := WriteBlock(i, off, src[tot..tot + m], copies(j));
        RecordedTwice(old(d), old(bitmap), before, bm, d, bitmap, sb.bmapstart, some, logged);
        SpanMore(off0, |src|, tot, j);
        if !ok {
          if !copies(j) { FailsAt(copies, j, Span(off0, |src|)); }
          WriteStops(d0, before, mid, i, off0, src, tot, next, news, mem, logged - (log0 + maps));
          return;
        }
        WriteGoesOn(d0, before, mid, own, sb.nmeta, Limit(sb), i, off0, src, tot, next, news, mem,
          logged - (log0 + maps));
        NextCopied(copies, j);
        tot, off, j, next := tot + m, off + m, j + 1, next + 1;
      }
      WriteEnds(d0, d, i, off0, src, tot, next, logged - (log0 + maps), allocs - mem0);
    }

    /** kernel/fs.c:518-552. `copies` tells which of the copies from user space succeed. */
    method WriteI(i: nat, src: seq<int>, off: nat, copies: nat -> bool) returns (tot: int)
      requires Valid() && i < |d.inodes| && off < 0x1_0000_0000 && |src| < 0x1_0000_0000
      modifies this
      ensures Valid() && -1 <= tot <= |src| && |d.inodes| == |old(d).inodes| && maps >= old(maps)
      ensures tot == -1 <==> off > old(d).inodes[i].size || off + |src| > MAXFILE * BSIZE
      ensures tot == -1 ==> unchanged(this)
      ensures tot >= 0 ==> Written(old(d), d, i, off, src[..tot]) && RefsStay(old(d), d)
      ensures tot >= 0 ==> forall f :: 0 <= f < |d.inodes| ==>
        d.inodes[f].size == if f == i && off + tot > old(d).inodes[i].size then off + tot else old(d).inodes[f].size
      ensures tot >= 0 ==> Content(d, i) == Overlay(old(Content(d, i)), off, src[..tot])
      ensures tot >= 0 ==> forall f :: 0 <= f < |d.inodes| && f != i ==> Content(d, f) == Content(old(d), f)
      ensures tot >= 0 ==> dinodes == old(dinodes)[i := d.inodes[i]]
      ensures old(logged) <= logged && Recorded(old(d), old(bitmap), d, bitmap, sb.bmapstart, logged)
      ensures tot >= 0 ==> IBlock(i) in logged
      ensures 0 <= tot < |src| ==> Full(own, sb) || Fails(copies, Span(off, |src|))
      ensures tot == |src| ==> !Fails(copies, Span(off, |src|))
      ensures tot >= 0 && NoHoles(old(d), i) ==> NoHoles(d, i)
      ensures tot >= 0 ==> Accounted(old(d), d, i, off / BSIZE, EndBlock(off, |src|),
        logged - (old(logged) + maps + {IBlock(i)}), allocs - old(allocs))
    {
      hide Inv, Shows, Used, Ref, ByteAt, SameFiles, RefsStay, Written, SameRefs, Accounted, SlotOf, Full, Wrote,
           EndBlock, NoHoles, Content, Overlay, IBlock, Limit, Recorded, Fails;
      RecordedNone(d, d, bitmap, sb.bmapstart, logged);
      var end := (off + |src|) % 0x1_0000_0000;
      SizeFits(d, own, sb.nmeta, Limit(sb), i);
      if off > d.inodes[i].size || end < off { return -1; }
      if end > MAXFILE * BSIZE { return -1; }
      tot := WriteBlocks(i, src, off, copies);
      ghost var mid, news := d, logged - (old(logged) + maps);
      ghost var some := logged;
      GrowSize(i, off + tot);
      RecordedNone(mid, d, bitmap, sb.bmapstart, logged);
      RecordedTwice(old(d), old(bitmap), mid, bitmap, d, bitmap, sb.bmapstart, some, logged);
      WroteAll(old(d), mid, own, sb.nmeta, Limit(sb), i, off, src, tot, news, allocs - old(allocs),
        logged - (old(logged) + maps + {IBlock(i)}));
      SizesFit(d, own, sb.nmeta, Limit(sb));
      WrittenContent(old(d), d, i, off, src[..tot]);
    }

    /** kernel/file.c:162-167: one chunk between begin_op and end_op, and how many blocks it logs. */
    method WriteChunk(i: nat, src: seq<int>, off: nat, copies: nat -> bool) returns (r: int, ghost count: nat)
      requires Valid() && i < |d.inodes| && NoHoles(d, i) && off <= MAXFILE * BSIZE && |src| <= 3 * BSIZE
      modifies this
      ensures Valid() && |d.inodes| == |old(d).inodes| && NoHoles(d, i) && -1 <= r <= |src|
      ensures count <= 7 <= MAXOPBLOCKS && count == |logged|
      ensures r == -1 <==> off > old(d).inodes[i].size || off + |src| > MAXFILE * BSIZE
      ensures r == -1 ==> d == old(d)
      ensures Recorded(old(d), old(bitmap), d, bitmap, sb.bmapstart, logged) && (r >= 0 ==> IBlock(i) in logged)
      ensures 0 <= r < |src| ==> Full(own, sb) || Fails(copies, Span(off, |src|))
      ensures r >= 0 ==> off + r <= d.inodes[i].size && Content(d, i) == Overlay(old(Content(d, i)), off, src[..r])
    {
      hide Inv, Shows, Used, NoHoles, Content, Overlay, Accounted, RefsStay, Written, Full, Recorded, Fails;
      logged, maps, allocs := {}, {}, 0;
      r := WriteI(i, src, off, copies);
      count := |logged|;
      if r >= 0 {
        SubsetSize(maps, {sb.bmapstart as int});
        assert logged - ({} + maps + {IBlock(i)}) == logged - (maps + {IBlock(i)});
        Budget(old(d), d, i, off, |src|, logged, maps, allocs, IBlock(i));
      }
    }

    /** kernel/file.c:148-175: write in chunks, a transaction for each. */
    method FileWrite(i: nat, off0: nat, src: seq<int>, n: int, copies: (nat, nat) -> bool) returns (ret: int,
            off: nat, ghost worst: nat)
      requires Valid() && i < |d.inodes| && NoHoles(d, i) && (n >= 0 ==> |src| == n) && n < 0x8000_0000
      requires off0 <= MAXFILE * BSIZE
      modifies this
      ensures Valid() && |d.inodes| == |old(d).inodes| && NoHoles(d, i)
      ensures worst <= 7
      ensures off0 <= off && off - off0 <= |src| && (ret == n >= 0 <==> off == off0 + n) && (ret == n || ret == -1)
      ensures ret != n && n >= 0 ==>
        || off0 > old(d).inodes[i].size || off0 + n > MAXFILE * BSIZE || Full(own, sb)
        || exists c, j :: !copies(c, j)
      ensures ret == n > 0 ==> off0 <= old(d).inodes[i].size && off0 + n <= MAXFILE * BSIZE
      ensures off0 <= old(d).inodes[i].size ==> Content(d, i) == Overlay(old(Content(d, i)), off0, src[..off - off0])
      ensures off0 > old(d).inodes[i].size ==> d == old(d) && off == off0
    {
      hide Valid, NoHoles, Content, Overlay, Accounted, RefsStay, Written, Full, IBlock, Recorded;
      var max := (MAXOPBLOCKS - 1 - 1 - 2) / 2 * BSIZE;
      var k: nat, c: nat := 0, 0;
      off, worst := off0, 0;
      ghost var ok := off0 <= d.inodes[i].size;
      OverlayNone(Content(d, i), off0);
      while k < n
        invariant 0 <= k && off == off0 + k <= MAXFILE * BSIZE && (if n >= 0 then k <= n else k == 0)
        invariant Valid() && |d.inodes| == |old(d).inodes| && NoHoles(d, i) && worst <= 7
        invariant ok ==> off <= d.inodes[i].size && Content(d, i) == Overlay(old(Content(d, i)), off0, src[..k])
        invariant !ok ==> d == old(d) && k == 0
      {
        var n1 := if n - k > max then max else n - k;
        var r;
        ghost var count;
        r, count := WriteChunk(i, src[k..k + n1], off, (j: nat) => copies(c, j));
        worst := if count > worst then count else worst;
        if r >= 0 && ok {
          OverlayMore(old(Content(d, i)), off0, src, k, r);
          assert src[k..k + n1][..r] == src[k..k + r];
        }
        if r > 0 { off := off + r; }
        if r != n1 { break; }
        k, c := k + r, c + 1;
      }
      ret := if k == n then n else -1;
    }
  }

  /** The bit of a block within the map and within its bitmap block. */
  lemma BitPlace(bitmap: seq<bv8>, used: set<nat>, n: nat, b: nat)
    requires Shows(bitmap, n, used) && b < n
    ensures b / 8 < |bitmap| && b % 8 == b % BPB % 8 && b / 8 == b / BPB * 1024 + b % BPB / 8
  {
  }

  /** What balloc sees in one bit of the map. */
  lemma LookAt(bitmap: seq<bv8>, own: map<nat, Place>, lo: nat, hi: nat, base: nat, bi: nat)
    requires Shows(bitmap, hi, Used(own, lo, hi)) && base % BPB == 0 && bi < BPB && base + bi < hi
    ensures (base + bi) / 8 == base / 8 + bi / 8 < |bitmap| && (base + bi) % 8 == bi % 8
    ensures bitmap[base / 8 + bi / 8] & Mask(bi % 8) == 0 <==> base + bi !in Used(own, lo, hi)
    ensures base + bi !in Used(own, lo, hi) <==> lo <= base + bi && base + bi !in own
  {
    assert base + bi in Used(own, lo, hi) <==> Bit(bitmap, base + bi);
  }

  lemma DataBlock(d: Disk, own: map<nat, Place>, bitmap: seq<bv8>, lo: nat, hi: nat, b: nat)
    requires Inv(d, own, lo, hi) && b < hi && Shows(bitmap, hi, Used(own, lo, hi))
    ensures b < |d.blocks| && 0 < lo && b / 8 < |bitmap|
  {
  }

  lemma SameLength(d: Disk, t: Disk, i: nat, k: nat)
    requires Grows(d, t, i, k)
    ensures |t.inodes| == |d.inodes|
  {
  }

  lemma SizeFits(d: Disk, own: map<nat, Place>, lo: nat, hi: nat, i: nat)
    requires Inv(d, own, lo, hi) && i < |d.inodes|
    ensures d.inodes[i].size <= MAXFILE * BSIZE
  {
  }

  lemma SizesFit(d: Disk, own: map<nat, Place>, lo: nat, hi: nat)
    requires Inv(d, own, lo, hi)
    ensures forall f :: 0 <= f < |d.inodes| ==> d.inodes[f].size <= MAXFILE * BSIZE
  {
  }

  /** Bytes `off` up to `off + n` of file `i`. */
  function Slice(d: Disk, i: nat, off: nat, n: nat): (r: seq<int>)
    ensures |r| == n && forall x :: 0 <= x < n ==> r[x] == ByteAt(d, i, off + x)
  {
    seq(n, x requires 0 <= x => ByteAt(d, i, off + x))
  }

  /** How much of a read lies within the file. */
  function Clipped(d: Disk, i: nat, off: nat, n: nat): nat
    requires i < |d.inodes|
  {
    if off > d.inodes[i].size then 0 else if off + n > d.inodes[i].size then d.inodes[i].size - off else n
  }

  lemma NoneRead(d: Disk, i: nat, off: nat)
    ensures SameFiles(d, d) && Slice(d, i, off, 0) == []
  {
  }

  lemma ReadOn(d: Disk, t: Disk, u: Disk, i: nat, n: nat)
    requires SameFiles(d, t) && Grows(t, u, i, SlotOf(n))
    ensures SameFiles(d, u) && |u.inodes| == |d.inodes|
  {
    hide ByteAt;
    forall f: nat, x: nat | f < |d.inodes| && x < MAXFILE * BSIZE ensures ByteAt(u, f, x) == ByteAt(d, f, x) {
      assert ByteAt(u, f, x) == ByteAt(t, f, x);
    }
    forall f | 0 <= f < |d.inodes| ensures u.inodes[f].size == d.inodes[f].size {
      assert t.inodes[f].size == d.inodes[f].size;
    }
  }

  lemma BlockShape(d: Disk, own: map<nat, Place>, lo: nat, hi: nat, i: nat, n: nat)
    requires Inv(d, own, lo, hi) && i < |d.inodes| && n < MAXFILE && Ref(d, i, SlotOf(n)) != 0
    ensures 0 < Ref(d, i, SlotOf(n)) < |d.blocks| && |d.blocks[Ref(d, i, SlotOf(n))]| == BSIZE
  {
    hide Ref;
    RefIsNat(d, own, lo, hi, i, SlotOf(n));
  }

  lemma SliceMore(d: Disk, t: Disk, i: nat, off: nat, tot: nat, m: nat, addr: int)
    requires SameFiles(d, t) && i < |d.inodes| && off + tot + m <= MAXFILE * BSIZE && (off + tot) % BSIZE + m <= BSIZE
    requires addr == Ref(t, i, SlotOf((off + tot) / BSIZE)) && 0 < addr < |t.blocks| && |t.blocks[addr]| == BSIZE
    ensures Slice(d, i, off, tot) + t.blocks[addr][(off + tot) % BSIZE..(off + tot) % BSIZE + m]
      == Slice(d, i, off, tot + m)
  {
    hide Ref;
    var o := (off + tot) % BSIZE;
    var s := Slice(d, i, off, tot) + t.blocks[addr][o..o + m];
    forall x | 0 <= x < tot + m ensures s[x] == ByteAt(d, i, off + x) {
      if x >= tot {
        assert (off + x) / BSIZE == (off + tot) / BSIZE && (off + x) % BSIZE == o + (x - tot);
        assert ByteAt(t, i, off + x) == t.blocks[addr][o + (x - tot)];
      }
    }
  }

  lemma GrowsNot(d: Disk, i: nat, k: nat)
    ensures Grows(d, d, i, k)
  {
  }

  lemma AddrShape(d: Disk, own: map<nat, Place>, lo: nat, hi: nat, i: nat)
    requires Inv(d, own, lo, hi) && i < |d.inodes|
    ensures |d.inodes[i].addrs| == 13
  {
  }

  lemma RefIsNat(d: Disk, own: map<nat, Place>, lo: nat, hi: nat, i: nat, k: nat)
    requires Inv(d, own, lo, hi) && i < |d.inodes| && k < NSLOTS
    ensures 0 <= Ref(d, i, k) < |d.blocks| && 0 <= Ref(d, i, NDIRECT) < |d.blocks|
    ensures Ref(d, i, NDIRECT) == 0 ==> k >= 13 ==> Ref(d, i, k) == 0
  {
    assert RefOwned(d, own, i, k) && RefOwned(d, own, i, NDIRECT);
    if Ref(d, i, k) != 0 { assert OwnRef(d, own, lo, Ref(d, i, k)); }
    if Ref(d, i, NDIRECT) != 0 { assert OwnRef(d, own, lo, Ref(d, i, NDIRECT)); }
  }

  /** With an indirect block in place, its entries are words of it. */
  lemma NewTable(d: Disk, t: Disk, own: map<nat, Place>, lo: nat, hi: nat, i: nat, k: nat)
    requires Inv(t, own, lo, hi) && i < |t.inodes| && 13 <= k < NSLOTS && Ref(t, i, NDIRECT) != 0
    requires Grows(d, t, i, NDIRECT) && i < |d.inodes|
    ensures |t.inodes[i].addrs| == 13 && 0 < t.inodes[i].addrs[NDIRECT] < |t.blocks|
    ensures Ref(t, i, k) == WordAt(t.blocks[t.inodes[i].addrs[NDIRECT]], k - 13) >= 0 && Ref(t, i, k) == Ref(d, i, k)
  {
    RefIsNat(t, own, lo, hi, i, k);
  }
}
