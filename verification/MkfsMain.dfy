/** mkfs's main (mkfs/mkfs.c:69-175): from an empty disk to an image the kernel mounts. */
module MkfsMain {
  import opened Bitmap
  import opened FsModel
  import opened FsCode
  import opened Mkfs
  import opened Params

  const NINODES: nat := 200
  const ROOTINO: nat := 1
  const DIRSIZ: nat := 14

  const INODESTART: nat := 2 + LOGSIZE
  const BMAPSTART: nat := INODESTART + NINODES / IPB + 1
  const NMETA: nat := BMAPSTART + FSSIZE / BPB + 1
  const SUPER: Super := Super(FSSIZE, INODESTART, BMAPSTART, NMETA)

  /** A file named on the command line, its name already stripped. */
  datatype File = File(name: seq<int>, data: seq<int>)

  /** A directory entry: the inode number in two bytes, and the name in fourteen. */
  function Entry(inum: nat, name: seq<int>): (e: seq<int>)
    requires |name| <= DIRSIZ
    ensures |e| == 16
  {
    [inum % 256, inum / 256 % 256] + name + seq(DIRSIZ - |name|, _ => 0)
  }

  predicate Nameable(files: seq<File>) { forall f :: 0 <= f < |files| ==> |files[f].name| <= DIRSIZ }

  /** The root directory once the first `n` files are in it; they have inodes 2, 3 and so on. */
  function Listing(files: seq<File>, n: nat): (r: seq<int>)
    requires n <= |files| && Nameable(files)
    ensures |r| == 16 * (n + 2)
  {
    if n == 0 then Entry(ROOTINO, [46]) + Entry(ROOTINO, [46, 46])
    else Listing(files, n - 1) + Entry(n + 1, files[n - 1].name)
  }

  // ---- how many blocks files take ----

  function Ceil(z: nat): nat { (z + BSIZE - 1) / BSIZE }

  /** Data blocks, and an indirect block past the twelfth. */
  function BlocksFor(z: nat): nat { Ceil(z) + if Ceil(z) > NDIRECT then 1 else 0 }

  function Total(sizes: seq<nat>): nat { if sizes == [] then 0 else BlocksFor(sizes[0]) + Total(sizes[1..]) }

  lemma CeilMono(a: nat, b: nat)
    requires a <= b
    ensures Ceil(a) <= Ceil(b) && BlocksFor(a) <= BlocksFor(b)
  {}

  lemma {:induction false} TotalMono(a: seq<nat>, b: seq<nat>)
    requires |a| == |b| && forall i :: 0 <= i < |a| ==> a[i] <= b[i]
    ensures Total(a) <= Total(b)
  {
    hide BlocksFor;
    if a != [] {
      CeilMono(a[0], b[0]);
      TotalMono(a[1..], b[1..]);
    }
  }

  lemma {:induction false} TotalUpdate(a: seq<nat>, i: nat, z: nat)
    requires i < |a|
    ensures Total(a[i := z]) == Total(a) - BlocksFor(a[i]) + BlocksFor(z)
  {
    hide BlocksFor;
    if i == 0 {
      assert a[0 := z][1..] == a[1..];
    } else {
      assert a[i := z][1..] == a[1..][i - 1 := z];
      TotalUpdate(a[1..], i - 1, z);
    }
  }

  ghost function Sizes(d: Disk): (r: seq<nat>)
    ensures |r| == |d.inodes| && forall i :: 0 <= i < |r| ==> r[i] == d.inodes[i].size
  {
    seq(|d.inodes|, i requires 0 <= i < |d.inodes| => d.inodes[i].size)
  }

  /** A dense file has holes only from its end on. */
  lemma {:induction false} HolesDense(d: Disk, i: nat, a: nat, b: nat)
    requires Dense(d, i) && a <= b <= MAXFILE && a <= Ceil(d.inodes[i].size)
    ensures Holes(d, i, a, b) == if b <= Ceil(d.inodes[i].size) then 0 else b - Ceil(d.inodes[i].size)
    decreases b
  {
    hide Ref;
    if a < b {
      HolesDense(d, i, a, b - 1);
      assert Ref(d, i, SlotOf(b - 1)) != 0 <==> (b - 1) * BSIZE < d.inodes[i].size;
      assert (b - 1) * BSIZE < d.inodes[i].size <==> b <= Ceil(d.inodes[i].size);
    }
  }

  /** A dense file of more than twelve blocks has its indirect block. */
  lemma TableThere(d: Disk, i: nat)
    requires Dense(d, i) && d.inodes[i].size <= MAXFILE * BSIZE && Ceil(d.inodes[i].size) > NDIRECT
    ensures Ref(d, i, NDIRECT) != 0
  {
    assert Ref(d, i, SlotOf(12)) != 0 <==> 12 * BSIZE < d.inodes[i].size;
  }

  /** An append takes at most the blocks by which the file grows. */
  lemma AppendNeeds(d: Disk, i: nat, n: nat)
    requires i < |d.inodes| && Dense(d, i) && d.inodes[i].size + n <= MAXFILE * BSIZE
    ensures var z := d.inodes[i].size;
      NewForAll(d, i, z / BSIZE, EndBlock(z, n)) <= BlocksFor(z + n) - BlocksFor(z)
  {
    hide Ref, Dense;
    var z := d.inodes[i].size;
    var b := EndBlock(z, n);
    assert z / BSIZE <= Ceil(z) && b <= Ceil(z + n) && (n > 0 ==> b == Ceil(z + n)) && Ceil(z + n) <= MAXFILE;
    CeilMono(z, z + n);
    HolesDense(d, i, z / BSIZE, b);
    if Ceil(z) > NDIRECT { TableThere(d, i); }
  }

  // ---- one append ----

  /** Beyond its size a file reads as zero. */
  ghost predicate ZeroTails(d: Disk) {
    forall f: nat, x: nat {:trigger ByteAt(d, f, x)} ::
      f < |d.inodes| && d.inodes[f].size <= x < MAXFILE * BSIZE ==> ByteAt(d, f, x) == 0
  }

  /** An image being filled with files that will have the sizes in `goal`. */
  ghost predicate Filling(d: Disk, free: nat, lo: nat, hi: nat, goal: seq<nat>) {
    && |goal| == |d.inodes| && lo + Total(goal) <= hi && free <= lo + Total(Sizes(d))
    && (forall f :: 0 <= f < |goal| ==> d.inodes[f].size <= goal[f] <= MAXFILE * BSIZE)
    && (forall f: nat :: f < |d.inodes| ==> Dense(d, f)) && ZeroTails(d)
  }

  lemma FillingRoom(d: Disk, free: nat, lo: nat, hi: nat, goal: seq<nat>, i: nat, n: nat)
    requires Filling(d, free, lo, hi, goal) && i < |d.inodes| && d.inodes[i].size + n <= goal[i]
    ensures Dense(d, i) && d.inodes[i].size + n <= MAXFILE * BSIZE
    ensures free + NewForAll(d, i, d.inodes[i].size / BSIZE, EndBlock(d.inodes[i].size, n)) <= hi
    ensures lo + Total(Sizes(d)) + NewForAll(d, i, d.inodes[i].size / BSIZE, EndBlock(d.inodes[i].size, n))
            <= lo + Total(Sizes(d)[i := d.inodes[i].size + n])
  {
    hide Dense, BlocksFor, NewForAll;
    AppendNeeds(d, i, n);
    TotalUpdate(Sizes(d), i, d.inodes[i].size + n);
    TotalMono(Sizes(d)[i := d.inodes[i].size + n], goal);
  }

  lemma TailsStay(d: Disk, t: Disk, i: nat, src: seq<int>)
    requires ZeroTails(d) && i < |d.inodes| && Written(d, t, i, d.inodes[i].size, src)
    requires t.inodes[i].size == d.inodes[i].size + |src|
    requires forall f :: 0 <= f < |d.inodes| && f != i ==> t.inodes[f].size == d.inodes[f].size
    ensures ZeroTails(t)
  {
    hide ByteAt;
    forall f: nat, x: nat | f < |t.inodes| && t.inodes[f].size <= x < MAXFILE * BSIZE ensures ByteAt(t, f, x) == 0 {
      assert ByteAt(t, f, x) == ByteAt(d, f, x);
    }
  }

  /** iappend to a file that has room for it. */
  method Append(img: Image, i: nat, src: seq<int>, ghost goal: seq<nat>)
    requires img.Valid() && Filling(img.d, img.freeblock, img.lo, img.hi, goal)
    requires i < |img.d.inodes| && img.d.inodes[i].size + |src| <= goal[i]
    modifies img
    ensures img.Valid() && Filling(img.d, img.freeblock, img.lo, img.hi, goal)
    ensures |img.d.inodes| == |old(img.d).inodes| && Content(img.d, i) == old(Content(img.d, i)) + src
    ensures forall f :: 0 <= f < |img.d.inodes| && f != i ==> Content(img.d, f) == Content(old(img.d), f)
  {
    hide Built, Dense, Ref, ByteAt, Content, NewForAll, Written, ZeroTails, RefsStay;
    FillingRoom(img.d, img.freeblock, img.lo, img.hi, goal, i, |src|);
    ghost var d0 := img.d;
    img.IAppend(i, src);
    SizesAre(d0, img.d, i, src);
    TailsStay(d0, img.d, i, src);
    assert Sizes(img.d) == Sizes(d0)[i := d0.inodes[i].size + |src|];
    forall f: nat | f < |img.d.inodes| ensures Dense(img.d, f) {}
  }

  lemma SizesAre(d: Disk, t: Disk, i: nat, src: seq<int>)
    requires i < |d.inodes| == |t.inodes| && Content(t, i) == Content(d, i) + src
    requires forall f :: 0 <= f < |t.inodes| && f != i ==> Content(t, f) == Content(d, f)
    ensures t.inodes[i].size == d.inodes[i].size + |src|
    ensures forall f :: 0 <= f < |d.inodes| && f != i ==> t.inodes[f].size == d.inodes[f].size
  {
    forall f | 0 <= f < |d.inodes| && f != i ensures t.inodes[f].size == d.inodes[f].size {
      assert |Content(t, f)| == |Content(d, f)|;
    }
  }

  // ---- the whole image ----

  /** The sizes the inodes end with: the root directory, then the files from inode 2 on. */
  function Goal(files: seq<File>): (r: seq<nat>)
    requires |files| + 2 <= NINODES
    ensures |r| == NINODES && r[ROOTINO] == 16 * (|files| + 2)
    ensures forall f {:trigger files[f]} :: 0 <= f < |files| ==> r[f + 2] == |files[f].data|
  {
    seq(NINODES, i requires 0 <= i => if i == ROOTINO then 16 * (|files| + 2)
                                      else if 2 <= i < |files| + 2 then |files[i - 2].data| else 0)
  }

  /** mkfs can build the image: few enough files, none too long, and blocks for all of them
      below the swap area. */
  predicate Buildable(files: seq<File>) {
    && |files| + 2 <= NINODES && Nameable(files)
    && (forall f :: 0 <= f < |files| ==> |files[f].data| <= MAXFILE * BSIZE)
    && NMETA + Total(Goal(files)) <= SWAPBASE
  }

  /** Root and the first `n` files are written; inodes from `n + 2` on are empty. */
  ghost predicate Holds(d: Disk, files: seq<File>, n: nat)
    requires Nameable(files) && n <= |files| && |files| + 2 <= NINODES
  {
    && |d.inodes| == NINODES && Content(d, ROOTINO) == Listing(files, n)
    && (forall f: nat {:trigger files[f]} :: f < n ==> Content(d, f + 2) == files[f].data)
    && (forall i: nat {:trigger Content(d, i)} :: (i == 0 || n + 2 <= i < NINODES) ==> Content(d, i) == [])
  }

  /** mkfs/mkfs.c:159-160: a file, a buffer at a time. */
  method WriteFile(img: Image, i: nat, data: seq<int>, ghost goal: seq<nat>)
    requires img.Valid() && Filling(img.d, img.freeblock, img.lo, img.hi, goal)
    requires i < |img.d.inodes| && Content(img.d, i) == [] && |data| <= goal[i]
    modifies img
    ensures img.Valid() && Filling(img.d, img.freeblock, img.lo, img.hi, goal)
    ensures |img.d.inodes| == |old(img.d).inodes| && Content(img.d, i) == data
    ensures forall f :: 0 <= f < |img.d.inodes| && f != i ==> Content(img.d, f) == Content(old(img.d), f)
  {
    hide Built, ByteAt, Filling, Content;
    var pos := 0;
    while pos < |data|
      invariant 0 <= pos <= |data| && img.Valid() && Filling(img.d, img.freeblock, img.lo, img.hi, goal)
      invariant |img.d.inodes| == |old(img.d).inodes| && Content(img.d, i) == data[..pos]
      invariant forall f :: 0 <= f < |img.d.inodes| && f != i ==> Content(img.d, f) == Content(old(img.d), f)
    {
      var cc := if |data| - pos < BSIZE then |data| - pos else BSIZE;
      assert data[..pos] + data[pos..pos + cc] == data[..pos + cc];
      Append(img, i, data[pos..pos + cc], goal);
      pos := pos + cc;
    }
    assert data[..pos] == data;
  }

  lemma EmptyImage(d: Disk, files: seq<File>, lo: nat, own: map<nat, Place>)
    requires Buildable(files) && |d.inodes| == NINODES && lo == NMETA && Built(d, own, lo, SWAPBASE, lo)
    requires forall i :: 0 <= i < NINODES ==> d.inodes[i].size == 0 && Dense(d, i)
    ensures Filling(d, lo, lo, SWAPBASE, Goal(files))
    ensures forall i: nat :: i < NINODES ==> Content(d, i) == []
  {
    hide Dense, Total;
    forall i: nat | i < NINODES ensures Content(d, i) == [] {}
    NoBytes(d, own, lo, SWAPBASE);
  }

  /** An image with no block handed out has only zeros. */
  lemma NoBytes(d: Disk, own: map<nat, Place>, lo: nat, hi: nat)
    requires Built(d, own, lo, hi, lo)
    ensures ZeroTails(d)
  {
    forall f: nat, x: nat | f < |d.inodes| && d.inodes[f].size <= x < MAXFILE * BSIZE ensures ByteAt(d, f, x) == 0 {
      assert RefOwned(d, own, f, SlotOf(x / BSIZE));
    }
  }

  /** mkfs/mkfs.c:165-170: the size of the root directory goes up past the next block boundary. */
  function Rounded(z: nat): nat { (z / BSIZE + 1) * BSIZE }

  lemma RoundArith(n: nat)
    requires n <= NINODES
    ensures 16 * n < Rounded(16 * n) <= MAXFILE * BSIZE
    ensures 16 * n % BSIZE != 0 <==> n % 64 != 0
  {}

  /** A larger size shows the zeros that lie past the end. */
  lemma Padded(d: Disk, own: map<nat, Place>, lo: nat, hi: nat, i: nat, z: nat)
    requires Inv(d, own, lo, hi) && ZeroTails(d) && i < |d.inodes| && d.inodes[i].size <= z <= MAXFILE * BSIZE
    ensures Content(Resized(d, i, z), i) == Content(d, i) + seq(z - d.inodes[i].size, _ => 0)
    ensures forall f: nat :: f < |d.inodes| && f != i ==> Content(Resized(d, i, z), f) == Content(d, f)
  {
    hide Ref, ByteAt, Inv;
    ResizedOk(d, own, lo, hi, i, z);
    var t := Resized(d, i, z);
    var c, e := Content(t, i), Content(d, i) + seq(z - d.inodes[i].size, _ => 0);
    forall x | 0 <= x < z ensures c[x] == e[x] {
      assert c[x] == ByteAt(t, i, x) == ByteAt(d, i, x);
    }
    forall f: nat | f < |d.inodes| && f != i ensures Content(t, f) == Content(d, f) { SameContent(d, t, f); }
  }

  lemma ResizedBuilt(d: Disk, own: map<nat, Place>, lo: nat, hi: nat, next: nat, i: nat, z: nat)
    requires Built(d, own, lo, hi, next) && i < |d.inodes| && z <= MAXFILE * BSIZE
    ensures Built(Resized(d, i, z), own, lo, hi, next)
  {
    hide Inv;
    ResizedOk(d, own, lo, hi, i, z);
  }

  lemma RoundedRoot(d: Disk, own: map<nat, Place>, lo: nat, hi: nat, next: nat, files: seq<File>)
    requires Built(d, own, lo, hi, next) && ZeroTails(d) && |files| + 2 <= NINODES && Nameable(files)
    requires Holds(d, files, |files|) && Dense(d, ROOTINO)
    ensures var t, z := Resized(d, ROOTINO, Rounded(d.inodes[ROOTINO].size)), 16 * (|files| + 2);
      && Built(t, own, lo, hi, next) && d.inodes[ROOTINO].size == z < Rounded(z)
      && Content(t, ROOTINO) == Listing(files, |files|) + seq(Rounded(z) - z, _ => 0)
      && (forall f: nat :: f < NINODES && f != ROOTINO ==> Content(t, f) == Content(d, f))
      && (NoHoles(t, ROOTINO) <==> (|files| + 2) % 64 != 0)
  {
    hide Built, ZeroTails, Dense, NoHoles, Nameable, Listing;
    var z := d.inodes[ROOTINO].size;
    assert z == |Content(d, ROOTINO)| == 16 * (|files| + 2);
    RoundArith(|files| + 2);
    BuiltInv(d, own, lo, hi, next);
    Padded(d, own, lo, hi, ROOTINO, Rounded(z));
    ResizedBuilt(d, own, lo, hi, next, ROOTINO, Rounded(z));
    RootRoundingHole(d, ROOTINO);
  }

  lemma SameContent(d: Disk, t: Disk, f: nat)
    requires f < |d.inodes| && f < |t.inodes| && d.inodes[f].size == t.inodes[f].size
    requires forall x: nat {:trigger ByteAt(t, f, x)} :: ByteAt(t, f, x) == ByteAt(d, f, x)
    ensures Content(t, f) == Content(d, f)
  {
    hide ByteAt;
    forall x | 0 <= x < |Content(t, f)| ensures Content(t, f)[x] == Content(d, f)[x] {
      assert Content(t, f)[x] == ByteAt(t, f, x);
    }
  }

  lemma MoreBits(m: seq<bv8>, n: nat, used: set<nat>, z: seq<bv8>)
    requires Shows(m, n, used)
    ensures Shows(m + z, n, used)
  {
    hide On;
    forall i | 0 <= i < n ensures Bit(m + z, i) == Bit(m, i) { assert i / 8 < |m|; }
    forall i: nat | i < n ensures i in used <==> Bit(m + z, i) { assert i in used <==> Bit(m, i); }
  }

  lemma SizeIs(d: Disk, i: nat)
    requires i < |d.inodes|
    ensures |Content(d, i)| == d.inodes[i].size
  {}

  /** mkfs/mkfs.c:152-160: one file and its entry in the root directory. */
  method AddFile(img: Image, files: seq<File>, n: nat, ghost goal: seq<nat>)
    requires Buildable(files) && goal == Goal(files) && n < |files|
    requires img.Valid() && Filling(img.d, img.freeblock, img.lo, img.hi, goal) && Holds(img.d, files, n)
    modifies img
    ensures img.Valid() && Filling(img.d, img.freeblock, img.lo, img.hi, goal) && Holds(img.d, files, n + 1)
  {
    hide Built, Filling, Content, Total, Entry, Goal;
    SizeIs(img.d, ROOTINO);
    SizeIs(img.d, n + 2);
    assert Content(img.d, n + 2) == [];
    ghost var d0 := img.d;
    Append(img, ROOTINO, Entry(n + 2, files[n].name), goal);
    assert Content(img.d, n + 2) == Content(d0, n + 2);
    WriteFile(img, n + 2, files[n].data, goal);
  }

  /** What the root directory of the image shows: the entries, and zeros up to the rounded size. */
  function RootBytes(files: seq<File>): seq<int>
    requires Nameable(files)
  {
    var z := 16 * (|files| + 2);
    Listing(files, |files|) + seq(Rounded(z) - z, _ => 0)
  }

  /** The disk of the finished image. */
  ghost predicate ImageOf(d: Disk, files: seq<File>)
    requires Nameable(files) && |files| + 2 <= NINODES
  {
    && |d.inodes| == NINODES && Content(d, ROOTINO) == RootBytes(files)
    && (forall f: nat {:trigger files[f]} :: f < |files| ==> Content(d, f + 2) == files[f].data)
    && (forall i: nat {:trigger Content(d, i)} :: (i == 0 || |files| + 2 <= i < NINODES) ==> Content(d, i) == [])
  }

  lemma FillingEnds(d: Disk, free: nat, lo: nat, hi: nat, goal: seq<nat>)
    requires Filling(d, free, lo, hi, goal)
    ensures free <= hi && ZeroTails(d) && forall f: nat :: f < |d.inodes| ==> Dense(d, f)
  {
    hide Dense, ZeroTails, BlocksFor;
    TotalMono(Sizes(d), goal);
  }

  /** mkfs/mkfs.c:165-172: the root's size, the bitmap; then the kernel mounts it. */
  method Finish(img: Image, files: seq<File>, ghost goal: seq<nat>) returns (fs: Fs)
    requires Buildable(files) && img.Valid() && img.lo == NMETA && img.hi == SWAPBASE
    requires Filling(img.d, img.freeblock, img.lo, img.hi, goal) && Holds(img.d, files, |files|)
    modifies img
    ensures fresh(fs) && fs.Valid() && fs.sb == SUPER && ImageOf(fs.d, files)
    ensures NoHoles(fs.d, ROOTINO) <==> (|files| + 2) % 64 != 0
  {
    hide Built, Filling, Content, Inv, Shows, Total, NoHoles, Rounded, Dense, ZeroTails, Listing, Used;
    FillingEnds(img.d, img.freeblock, img.lo, img.hi, goal);
    RoundedRoot(img.d, img.own, img.lo, img.hi, img.freeblock, files);
    ghost var d0 := img.d;
    var off := img.d.inodes[ROOTINO].size;
    off := (off / BSIZE + 1) * BSIZE;
    img.d := img.d.(inodes := img.d.inodes[ROOTINO := img.d.inodes[ROOTINO].(size := off)]);
    assert off == Rounded(d0.inodes[ROOTINO].size) by { RoundedIs(d0.inodes[ROOTINO].size); }
    assert img.d == Resized(d0, ROOTINO, off);
    RootIs(d0, img.d, files);
    var buf := WriteBitmap(img.freeblock);
    ImageMounts(img.d, img.own, img.lo, img.hi, img.freeblock, buf);
    var rest := seq(3 * BSIZE, _ => 0);
    MoreBits(buf, SWAPBASE, Used(img.own, NMETA, SWAPBASE), rest);
    fs := new Fs(SUPER, img.d, buf + rest, img.own);
  }

  lemma RoundedIs(z: nat)
    ensures Rounded(z) == (z / BSIZE + 1) * BSIZE
  {}

  lemma RootIs(d: Disk, t: Disk, files: seq<File>)
    requires |files| + 2 <= NINODES && Nameable(files) && Holds(d, files, |files|) && |t.inodes| == NINODES
    requires Content(t, ROOTINO) == RootBytes(files)
    requires forall f: nat :: f < NINODES && f != ROOTINO ==> Content(t, f) == Content(d, f)
    ensures ImageOf(t, files)
  {
    hide Content, Listing, Rounded;
  }

  /** mkfs: the image mounts, its root directory lists the files and every file holds its bytes.
      The rounded root has a hole exactly when its entries filled whole blocks, 64 to a block. */
  method Make(files: seq<File>) returns (fs: Fs)
    requires Buildable(files)
    ensures fresh(fs) && fs.Valid() && fs.sb == SUPER && ImageOf(fs.d, files)
    ensures NoHoles(fs.d, ROOTINO) <==> (|files| + 2) % 64 != 0
  {
    hide Built, Filling, Content, Inv, Shows, Total, Holes, NoHoles, Rounded, Dense, ImageOf, Goal;
    ghost var goal := Goal(files);
    var img := new Image(NMETA, SWAPBASE, FSSIZE, NINODES);
    EmptyImage(img.d, files, img.lo, img.own);
    SizeIs(img.d, ROOTINO);
    Append(img, ROOTINO, Entry(ROOTINO, [46]), goal);
    SizeIs(img.d, ROOTINO);
    Append(img, ROOTINO, Entry(ROOTINO, [46, 46]), goal);
    assert [] + Entry(ROOTINO, [46]) + Entry(ROOTINO, [46, 46]) == Listing(files, 0);
    var n := 0;
    while n < |files|
      invariant 0 <= n <= |files| && fresh(img) && img.Valid() && img.lo == NMETA && img.hi == SWAPBASE
      invariant Filling(img.d, img.freeblock, img.lo, img.hi, goal) && Holds(img.d, files, n)
    {
      AddFile(img, files, n, goal);
      n := n + 1;
    }
    fs := Finish(img, files, goal);
  }

  /** Sixty-two files make 64 entries: a root of exactly one block, rounded to two, the second a hole. */
  lemma FullRootHole(d: Disk, own: map<nat, Place>, lo: nat, hi: nat, next: nat, files: seq<File>)
    requires Built(d, own, lo, hi, next) && ZeroTails(d) && |files| == 62 && Nameable(files)
    requires Holds(d, files, 62) && Dense(d, ROOTINO)
    ensures var t := Resized(d, ROOTINO, Rounded(d.inodes[ROOTINO].size));
      && d.inodes[ROOTINO].size == BSIZE && t.inodes[ROOTINO].size == 2 * BSIZE
      && Ref(t, ROOTINO, SlotOf(0)) != 0 && Ref(t, ROOTINO, SlotOf(1)) == 0
  {
    SizeIs(d, ROOTINO);
    assert Ref(d, ROOTINO, SlotOf(0)) != 0 <==> 0 * BSIZE < d.inodes[ROOTINO].size;
    assert Ref(d, ROOTINO, SlotOf(1)) != 0 <==> 1 * BSIZE < d.inodes[ROOTINO].size;
  }
}
