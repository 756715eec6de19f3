/** Files as inodes, direct and indirect blocks (kernel/fs.c:385-552), and which file each data
    block belongs to. A block is a sequence of 1024 byte values. */
module FsModel {
  import opened Params

  const NDIRECT: nat := 12
  const NINDIRECT: nat := 256
  const MAXFILE: nat := 268
  const NSLOTS: nat := 269

  type Block = seq<int>

  datatype Inode = Inode(addrs: seq<int>, size: nat)

  datatype Disk = Disk(blocks: seq<Block>, inodes: seq<Inode>)

  /** The `k`th block number of an inode: 0 to 11 are direct, 12 is the indirect block and 13 to
      268 are the entries in it. */
  datatype Place = Place(inum: nat, slot: nat)

  /** Little-endian word `k` of a block. */
  function WordAt(b: Block, k: nat): int {
    if 4 * k + 3 < |b| then b[4 * k] + 256 * b[4 * k + 1] + 65536 * b[4 * k + 2] + 16777216 * b[4 * k + 3] else 0
  }

  function PutWord(b: Block, k: nat, w: nat): (r: Block)
    requires 4 * k + 3 < |b|
    ensures |r| == |b|
  {
    b[4 * k := w % 256][4 * k + 1 := w / 256 % 256][4 * k + 2 := w / 65536 % 256][4 * k + 3 := w / 16777216 % 256]
  }

  lemma WordRoundTrip(b: Block, k: nat, w: nat, j: nat)
    requires 4 * k + 3 < |b| && 4 * j + 3 < |b| && w < 0x1_0000_0000
    ensures WordAt(PutWord(b, k, w), j) == if j == k then w else WordAt(b, j)
  {
    FourBytes(w);
    if j != k { assert j < k || k < j; }
  }

  lemma FourBytes(w: nat)
    requires w < 0x1_0000_0000
    ensures w == w % 256 + 256 * (w / 256 % 256) + 65536 * (w / 65536 % 256) + 16777216 * (w / 16777216 % 256)
  {
    assert w / 65536 == w / 256 / 256 && w / 16777216 == w / 65536 / 256;
  }

  function Zeros(): (r: Block)
    ensures |r| == BSIZE && forall i :: 0 <= i < BSIZE ==> r[i] == 0
  {
    seq(BSIZE, i => 0)
  }

  lemma ZeroWords(k: nat)
    ensures WordAt(Zeros(), k) == 0
  {
  }

  /** The block number in a slot, or 0. */
  function Ref(d: Disk, i: nat, k: nat): int {
    if i >= |d.inodes| || |d.inodes[i].addrs| != 13 then 0
    else if k <= NDIRECT then d.inodes[i].addrs[k]
    else if 0 < d.inodes[i].addrs[NDIRECT] < |d.blocks| then WordAt(d.blocks[d.inodes[i].addrs[NDIRECT]], k - 13)
    else 0
  }

  /** The slot for the `n`th block of a file. */
  function SlotOf(n: nat): nat { if n < NDIRECT then n else n + 1 }

  function InBlock(d: Disk, b: int, x: nat): int {
    if 0 < b < |d.blocks| && x < |d.blocks[b]| then d.blocks[b][x] else 0
  }

  /** Byte `x` of file `i`; a hole reads as zero. */
  function ByteAt(d: Disk, i: nat, x: nat): int { InBlock(d, Ref(d, i, SlotOf(x / BSIZE)), x % BSIZE) }

  // ---- the invariant ----

  ghost predicate Shaped(d: Disk) {
    && (forall b {:trigger d.blocks[b]} :: 0 <= b < |d.blocks| ==> |d.blocks[b]| == BSIZE)
    && (forall i {:trigger d.inodes[i]} :: 0 <= i < |d.inodes| ==>
      |d.inodes[i].addrs| == 13 && d.inodes[i].size <= MAXFILE * BSIZE)
  }

  /** A block number in a slot is the property of that slot. */
  ghost predicate RefOwned(d: Disk, own: map<nat, Place>, i: nat, k: nat) {
    Ref(d, i, k) != 0 ==> Ref(d, i, k) in own && own[Ref(d, i, k)] == Place(i, k)
  }

  /** A block that is owned is referred to from the place that owns it. */
  ghost predicate OwnRef(d: Disk, own: map<nat, Place>, lo: nat, b: nat) {
    b in own ==>
      && lo <= b < |d.blocks| && own[b].inum < |d.inodes| && own[b].slot < NSLOTS
      && Ref(d, own[b].inum, own[b].slot) == b
  }

  /** Every slot owns the block it names, except `n` indirect entries of inode `who` whose blocks
      are being freed; every owned block lies among the data blocks, from `lo` up to `hi`. */
  ghost predicate InvBut(d: Disk, own: map<nat, Place>, lo: nat, hi: nat, who: nat, n: nat) {
    && 0 < lo <= hi <= |d.blocks| && hi < 0x1_0000_0000 && Shaped(d)
    && (forall b {:trigger b in own} :: b in own ==> b < hi)
    && (forall b: nat {:trigger OwnRef(d, own, lo, b)} :: OwnRef(d, own, lo, b))
    && (forall i: nat, k: nat {:trigger RefOwned(d, own, i, k)} ::
          i < |d.inodes| && k < NSLOTS && !(i == who && 13 <= k < 13 + n) ==> RefOwned(d, own, i, k))
  }

  ghost predicate Inv(d: Disk, own: map<nat, Place>, lo: nat, hi: nat) { InvBut(d, own, lo, hi, 0, 0) }

  // ---- giving a fresh block to an empty slot ----

  /** bzero of a fresh block. */
  function Zeroed(d: Disk, b: int): Disk
    requires 0 <= b < |d.blocks|
  {
    d.(blocks := d.blocks[b := Zeros()])
  }

  function SetAddr(d: Disk, i: nat, k: nat, b: int): Disk
    requires i < |d.inodes| && k < |d.inodes[i].addrs|
  {
    d.(inodes := d.inodes[i := d.inodes[i].(addrs := d.inodes[i].addrs[k := b])])
  }

  function SetEntry(d: Disk, i: nat, j: nat, b: nat): Disk
    requires i < |d.inodes| && |d.inodes[i].addrs| == 13 && 0 <= d.inodes[i].addrs[NDIRECT] < |d.blocks|
    requires 4 * j + 3 < |d.blocks[d.inodes[i].addrs[NDIRECT]]|
  {
    var a := d.inodes[i].addrs[NDIRECT];
    d.(blocks := d.blocks[a := PutWord(d.blocks[a], j, b)])
  }

  /** Disk `t` is `d` with block `b`, all zeros, in a slot that was empty. */
  ghost predicate Attached(d: Disk, t: Disk, own: map<nat, Place>, i: nat, k: nat, b: nat) {
    && |t.blocks| == |d.blocks| && |t.inodes| == |d.inodes| && Shaped(t)
    && (forall x {:trigger t.inodes[x]} :: 0 <= x < |d.inodes| ==> t.inodes[x].size == d.inodes[x].size)
    && 0 < b < |d.blocks| && b !in own && t.blocks[b] == Zeros() && Ref(d, i, k) == 0
    && i < |d.inodes| && k < NSLOTS
    && (forall c {:trigger t.blocks[c]} :: 0 <= c < |d.blocks| && c != b && c != Ref(d, i, NDIRECT) ==>
      t.blocks[c] == d.blocks[c])
    && (forall x: nat, y: nat {:trigger Ref(t, x, y)} :: x < |d.inodes| && y < NSLOTS ==>
      Ref(t, x, y) == if x == i && y == k then b else Ref(d, x, y))
  }

  lemma AttachedInv(d: Disk, t: Disk, own: map<nat, Place>, lo: nat, hi: nat, i: nat, k: nat, b: nat)
    requires Inv(d, own, lo, hi) && Attached(d, t, own, i, k, b) && lo <= b < hi
    ensures Inv(t, own[b := Place(i, k)], lo, hi)
  {
    hide Ref;
    var own' := own[b := Place(i, k)];
    forall c: nat ensures OwnRef(t, own', lo, c) { assert OwnRef(d, own, lo, c); }
    forall x: nat, y: nat | x < |t.inodes| && y < NSLOTS ensures RefOwned(t, own', x, y) {
      assert RefOwned(d, own, x, y);
    }
  }

  /** Attaching a zeroed block changes no byte of any file. */
  lemma AttachedBytes(d: Disk, t: Disk, own: map<nat, Place>, lo: nat, hi: nat, i: nat, k: nat, b: nat, f: nat, x: nat)
    requires Inv(d, own, lo, hi) && Attached(d, t, own, i, k, b) && f < |d.inodes| && x < MAXFILE * BSIZE
    ensures ByteAt(t, f, x) == ByteAt(d, f, x)
  {
    hide Ref;
    var y := SlotOf(x / BSIZE);
    assert RefOwned(d, own, f, y) && RefOwned(d, own, i, NDIRECT);
    assert Ref(t, f, y) == if f == i && y == k then b else Ref(d, f, y);
  }

  /** No slot refers to a block that nobody owns, so zeroing it changes no reference. */
  lemma ZeroedRef(d: Disk, own: map<nat, Place>, lo: nat, hi: nat, b: nat, i: nat, k: nat)
    requires Inv(d, own, lo, hi) && 0 < b < |d.blocks| && b !in own && i < |d.inodes| && k < NSLOTS
    ensures Ref(Zeroed(d, b), i, k) == Ref(d, i, k)
  {
    assert RefOwned(d, own, i, NDIRECT);
  }

  lemma AttachAddr(d: Disk, own: map<nat, Place>, lo: nat, hi: nat, i: nat, k: nat, b: nat)
    requires Inv(d, own, lo, hi) && i < |d.inodes| && k <= NDIRECT && Ref(d, i, k) == 0 && lo <= b < hi && b !in own
    ensures Attached(d, SetAddr(Zeroed(d, b), i, k, b), own, i, k, b)
  {
    var z := Zeroed(d, b);
    var t := SetAddr(z, i, k, b);
    forall x: nat, y: nat | x < |d.inodes| && y < NSLOTS
      ensures Ref(t, x, y) == if x == i && y == k then b else Ref(d, x, y)
    {
      ZeroedRef(d, own, lo, hi, b, x, y);
      ZeroWords(if y >= 13 then y - 13 else 0);
    }
  }

  lemma AttachEntry(d: Disk, own: map<nat, Place>, lo: nat, hi: nat, i: nat, j: nat, b: nat)
    requires Inv(d, own, lo, hi) && i < |d.inodes| && j < NINDIRECT && Ref(d, i, NDIRECT) != 0 && Ref(d, i, 13 + j) == 0
    requires lo <= b < hi && b !in own
    ensures 0 < d.inodes[i].addrs[NDIRECT] < |d.blocks| && |Zeroed(d, b).blocks[d.inodes[i].addrs[NDIRECT]]| == BSIZE
    ensures Attached(d, SetEntry(Zeroed(d, b), i, j, b), own, i, 13 + j, b)
  {
    var a := d.inodes[i].addrs[NDIRECT];
    assert RefOwned(d, own, i, NDIRECT);
    assert OwnRef(d, own, lo, a);
    var z := Zeroed(d, b);
    var t := SetEntry(z, i, j, b);
    forall x: nat, y: nat | x < |d.inodes| && y < NSLOTS
      ensures Ref(t, x, y) == if x == i && y == 13 + j then b else Ref(d, x, y)
    {
      ZeroedRef(d, own, lo, hi, b, x, y);
      assert RefOwned(d, own, x, NDIRECT);
      if y >= 13 { WordRoundTrip(z.blocks[a], j, b, y - 13); }
    }
  }

  // ---- writing into a block ----

  function Splice(b: Block, o: nat, data: seq<int>): (r: Block)
    requires o + |data| <= |b|
    ensures |r| == |b| && forall x :: 0 <= x < |b| ==> r[x] == if o <= x < o + |data| then data[x - o] else b[x]
  {
    b[..o] + data + b[o + |data|..]
  }

  function Stored(d: Disk, b: int, o: nat, data: seq<int>): Disk
    requires 0 <= b < |d.blocks| && o + |data| <= |d.blocks[b]|
  {
    d.(blocks := d.blocks[b := Splice(d.blocks[b], o, data)])
  }

  lemma StoredRef(d: Disk, own: map<nat, Place>, lo: nat, hi: nat, i: nat, n: nat, o: nat, data: seq<int>, f: nat,
          k: nat)
    requires Inv(d, own, lo, hi) && i < |d.inodes| && n < MAXFILE && Ref(d, i, SlotOf(n)) != 0 && o + |data| <= BSIZE
    requires f < |d.inodes| && k < NSLOTS
    ensures 0 < Ref(d, i, SlotOf(n)) < |d.blocks| && |d.blocks[Ref(d, i, SlotOf(n))]| == BSIZE
    ensures Ref(Stored(d, Ref(d, i, SlotOf(n)), o, data), f, k) == Ref(d, f, k)
  {
    var b := Ref(d, i, SlotOf(n));
    assert RefOwned(d, own, i, SlotOf(n));
    assert OwnRef(d, own, lo, b);
    assert RefOwned(d, own, f, NDIRECT);
  }

  lemma StoredInv(d: Disk, own: map<nat, Place>, lo: nat, hi: nat, i: nat, n: nat, o: nat, data: seq<int>)
    requires Inv(d, own, lo, hi) && i < |d.inodes| && n < MAXFILE && Ref(d, i, SlotOf(n)) != 0 && o + |data| <= BSIZE
    ensures 0 < Ref(d, i, SlotOf(n)) < |d.blocks| && |d.blocks[Ref(d, i, SlotOf(n))]| == BSIZE
    ensures Inv(Stored(d, Ref(d, i, SlotOf(n)), o, data), own, lo, hi)
  {
    hide Ref;
    StoredRef(d, own, lo, hi, i, n, o, data, i, 0);
    var t := Stored(d, Ref(d, i, SlotOf(n)), o, data);
    forall c: nat ensures OwnRef(t, own, lo, c) {
      assert OwnRef(d, own, lo, c);
      if c in own { StoredRef(d, own, lo, hi, i, n, o, data, own[c].inum, own[c].slot); }
    }
    forall x: nat, y: nat | x < |t.inodes| && y < NSLOTS ensures RefOwned(t, own, x, y) {
      assert RefOwned(d, own, x, y);
      StoredRef(d, own, lo, hi, i, n, o, data, x, y);
    }
  }

  /** Bytes written into the `n`th block of a file appear there and nowhere else. */
  lemma StoredBytes(d: Disk, own: map<nat, Place>, lo: nat, hi: nat, i: nat, n: nat, o: nat, data: seq<int>,
          f: nat, x: nat)
    requires Inv(d, own, lo, hi) && i < |d.inodes| && n < MAXFILE && Ref(d, i, SlotOf(n)) != 0 && o + |data| <= BSIZE
    requires f < |d.inodes| && x < MAXFILE * BSIZE
    ensures 0 < Ref(d, i, SlotOf(n)) < |d.blocks| && |d.blocks[Ref(d, i, SlotOf(n))]| == BSIZE
    ensures var p := n * BSIZE + o;
      ByteAt(Stored(d, Ref(d, i, SlotOf(n)), o, data), f, x)
      == if f == i && p <= x < p + |data| then data[x - p] else ByteAt(d, f, x)
  {
    hide Ref;
    var k := SlotOf(x / BSIZE);
    StoredRef(d, own, lo, hi, i, n, o, data, f, k);
    assert RefOwned(d, own, i, SlotOf(n)) && RefOwned(d, own, f, k);
  }

  // ---- giving blocks back ----

  lemma DetachAddr(d: Disk, own: map<nat, Place>, lo: nat, hi: nat, i: nat, k: nat)
    requires Inv(d, own, lo, hi) && i < |d.inodes| && k < NDIRECT && Ref(d, i, k) != 0
    ensures Ref(d, i, k) in own && |d.inodes[i].addrs| == 13
    ensures Inv(SetAddr(d, i, k, 0), own - {Ref(d, i, k)}, lo, hi)
  {
    var b := Ref(d, i, k);
    assert RefOwned(d, own, i, k);
    var t, own' := SetAddr(d, i, k, 0), own - {b};
    forall c: nat ensures OwnRef(t, own', lo, c) { assert OwnRef(d, own, lo, c); }
    forall x: nat, y: nat | x < |t.inodes| && y < NSLOTS ensures RefOwned(t, own', x, y) {
      assert RefOwned(d, own, x, y);
    }
  }

  /** What is still owned when `k` addresses and `n` indirect entries of inode `i` are freed. */
  ghost function Remaining(own: map<nat, Place>, i: nat, k: nat, n: nat): map<nat, Place> {
    map b | b in own && !(own[b].inum == i && (own[b].slot < k || 13 <= own[b].slot < 13 + n)) :: own[b]
  }

  lemma RemainingAddr(d: Disk, was: map<nat, Place>, lo: nat, hi: nat, i: nat, k: nat, n: nat)
    requires InvBut(d, Remaining(was, i, k, n), lo, hi, i, n) && i < |d.inodes| && k <= NDIRECT
    ensures Remaining(was, i, k + 1, n) == Remaining(was, i, k, n) - {Ref(d, i, k)}
  {
    hide Ref;
    var own := Remaining(was, i, k, n);
    assert RefOwned(d, own, i, k);
    forall b | b in own ensures b in Remaining(was, i, k + 1, n) <==> b != Ref(d, i, k) {
      assert OwnRef(d, own, lo, b);
    }
    assert OwnRef(d, own, lo, 0);
  }

  /** Freeing the next entry of an indirect block that is about to go. */
  lemma ReleaseEntry(d: Disk, was: map<nat, Place>, lo: nat, hi: nat, i: nat, n: nat)
    requires InvBut(d, Remaining(was, i, NDIRECT, n), lo, hi, i, n) && i < |d.inodes| && n < NINDIRECT
    ensures Ref(d, i, 13 + n) != 0 ==> Ref(d, i, 13 + n) in Remaining(was, i, NDIRECT, n)
    ensures Remaining(was, i, NDIRECT, n + 1) == Remaining(was, i, NDIRECT, n) - {Ref(d, i, 13 + n)}
    ensures InvBut(d, Remaining(was, i, NDIRECT, n + 1), lo, hi, i, n + 1)
  {
    hide Ref;
    var b, own, own' := Ref(d, i, 13 + n), Remaining(was, i, NDIRECT, n), Remaining(was, i, NDIRECT, n + 1);
    assert RefOwned(d, own, i, 13 + n);
    assert OwnRef(d, own, lo, b);
    forall c | c in own ensures c in own' <==> c != b { assert OwnRef(d, own, lo, c); }
    forall c: nat ensures OwnRef(d, own', lo, c) { assert OwnRef(d, own, lo, c); }
    forall x: nat, y: nat | x < |d.inodes| && y < NSLOTS && !(x == i && 13 <= y < 13 + n + 1)
      ensures RefOwned(d, own', x, y)
    {
      assert RefOwned(d, own, x, y);
    }
  }

  lemma DetachTable(d: Disk, was: map<nat, Place>, lo: nat, hi: nat, i: nat)
    requires InvBut(d, Remaining(was, i, NDIRECT, NINDIRECT), lo, hi, i, NINDIRECT) && i < |d.inodes|
    requires Ref(d, i, NDIRECT) != 0
    ensures Ref(d, i, NDIRECT) in Remaining(was, i, NDIRECT, NINDIRECT) && |d.inodes[i].addrs| == 13
    ensures Remaining(was, i, 13, NINDIRECT) == Remaining(was, i, NDIRECT, NINDIRECT) - {Ref(d, i, NDIRECT)}
    ensures Inv(SetAddr(d, i, NDIRECT, 0), Remaining(was, i, 13, NINDIRECT), lo, hi)
  {
    var own := Remaining(was, i, NDIRECT, NINDIRECT);
    assert RefOwned(d, own, i, NDIRECT);
    RemainingAddr(d, was, lo, hi, i, NDIRECT, NINDIRECT);
    var t, own' := SetAddr(d, i, NDIRECT, 0), Remaining(was, i, 13, NINDIRECT);
    forall c: nat ensures OwnRef(t, own', lo, c) { assert OwnRef(d, own, lo, c); }
    forall x: nat, y: nat | x < |t.inodes| && y < NSLOTS ensures RefOwned(t, own', x, y) {
      if !(x == i && y >= 13) { assert RefOwned(d, own, x, y); }
    }
  }
}
