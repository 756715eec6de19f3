/** What the buffer cache is for (kernel/bio.c:3-16): contents. The buffers of `BufModel` with the data
    in them and the disk behind them: whoever reads a block gets what was last put in it. */
module BufData {
  import opened Params
  import opened BufModel

  type Block = seq<bv8>

  /** The disk is addressed by block number alone (kernel/virtio_disk.c:218): the device is not part of it. */
  datatype Cache = Cache(s: State, data: seq<Block>, disk: map<nat, Block>)

  function At(disk: map<nat, Block>, n: nat): Block { if n in disk then disk[n] else [] }

  datatype Use =
    | Read(dev: nat, blockno: nat)   // bread
    | Change(b: nat, d: Block)       // whoever holds a buffer changes its contents
    | Save(b: nat)                   // bwrite
    | Drop(b: nat)                   // brelse
    | Hold(b: nat)                   // bpin
    | Loose(b: nat)                  // bunpin

  predicate Clean(c: Cache, b: nat)
    requires b < |c.s.bufs| && b < |c.data|
  {
    c.data[b] == At(c.disk, c.s.bufs[b].blockno)
  }

  /** What callers keep to: two devices on disjoint blocks, buffers used only while referred to, and
      none let go of for good with a change that is not on disk. */
  predicate Allowed(c: Cache, u: Use) {
    |c.s.bufs| == |c.s.stamp| == |c.data| &&
    match u
    case Read(dev, blockno) => Proper(dev, blockno) && Get(c.s, dev, blockno).Got?
    case Change(b, _) => b < |c.s.bufs| && c.s.bufs[b].refcnt > 0 && c.s.bufs[b].valid
    case Drop(b) => b < |c.s.bufs| && c.s.bufs[b].refcnt > 0 && (c.s.bufs[b].refcnt == 1 ==> Clean(c, b))
    case Loose(b) => b < |c.s.bufs| && c.s.bufs[b].refcnt > 0 && (c.s.bufs[b].refcnt == 1 ==> Clean(c, b))
    case _ => u.b < |c.s.bufs| && c.s.bufs[u.b].refcnt > 0 && c.s.bufs[u.b].valid
  }

  /** bread: the contents come from the disk unless the buffer has them. */
  function ReadInto(c: Cache, dev: nat, blockno: nat): Cache
    requires Get(c.s, dev, blockno).Got? && |c.s.bufs| == |c.data| && Inv(c.s)
  {
    GetInv(c.s, dev, blockno);
    var g := Get(c.s, dev, blockno);
    c.(s := Fill(g.s, g.b), data := if g.s.bufs[g.b].valid then c.data else c.data[g.b := At(c.disk, blockno)])
  }

  function After(c: Cache, u: Use): Cache
    requires Inv(c.s) && Allowed(c, u)
  {
    match u
    case Read(dev, blockno) => ReadInto(c, dev, blockno)
    case Change(b, d) => c.(data := c.data[b := d])
    case Save(b) => c.(disk := c.disk[c.s.bufs[b].blockno := c.data[b]])
    case Drop(b) => c.(s := Release(c.s, b))
    case Hold(b) => c.(s := Pin(c.s, b))
    case Loose(b) => c.(s := Unpin(c.s, b))
  }

  /** The same use of a disk with no cache. */
  function Flat(m: map<nat, Block>, c: Cache, u: Use): map<nat, Block> {
    if u.Change? && u.b < |c.s.bufs| then m[c.s.bufs[u.b].blockno := u.d] else m
  }

  // ---- the invariant ----

  /** A buffer with data has the block's. */
  ghost predicate BufOk(c: Cache, m: map<nat, Block>, b: nat)
    requires b < |c.s.bufs| == |c.data|
  {
    c.s.bufs[b].valid ==> c.data[b] == At(m, c.s.bufs[b].blockno)
  }

  /** Buffer `b` holds block `n` and someone refers to it. */
  predicate Keeps(c: Cache, b: nat, n: nat) {
    b < |c.s.bufs| && c.s.bufs[b].valid && c.s.bufs[b].refcnt > 0 && c.s.bufs[b].blockno == n
  }

  /** A block is on disk as it was last changed, or in a buffer that cannot be recycled. */
  ghost predicate DiskOk(c: Cache, m: map<nat, Block>, n: nat) {
    At(c.disk, n) == At(m, n) || exists b :: Keeps(c, b, n)
  }

  ghost predicate Coherent(c: Cache, m: map<nat, Block>) {
    && Inv(c.s) && ProperKeys(c.s) && |c.s.bufs| == |c.s.stamp| == |c.data| == NBUF
    && (forall b: nat {:trigger BufOk(c, m, b)} :: b < NBUF ==> BufOk(c, m, b))
    && (forall n: nat {:trigger DiskOk(c, m, n)} :: DiskOk(c, m, n))
  }

  /** With two devices on disjoint blocks, a block has one key. */
  lemma SoleKeeper(c: Cache, dev: nat, blockno: nat, b: nat)
    requires Inv(c.s) && ProperKeys(c.s) && Proper(dev, blockno) && Keeps(c, b, blockno)
    ensures Get(c.s, dev, blockno).Got? && Get(c.s, dev, blockno).b == b && Get(c.s, dev, blockno).s.bufs[b].valid
  {
    BufsSize(c.s);
    FindsCached(c.s, dev, blockno, b);
    GotIsValid(c.s, dev, blockno);
  }

  /** What bread finds on disk, when it looks there, is the block as it was last changed. */
  lemma LoadsLatest(c: Cache, m: map<nat, Block>, dev: nat, blockno: nat)
    requires Coherent(c, m) && Allowed(c, Read(dev, blockno))
    ensures var g := Get(c.s, dev, blockno);
      g.b < |g.s.bufs| && (!g.s.bufs[g.b].valid ==> At(c.disk, blockno) == At(m, blockno))
  {
    hide Inv, Get, Proper, ProperKeys;
    GotIsValid(c.s, dev, blockno);
    assert DiskOk(c, m, blockno);
    if b: nat :| Keeps(c, b, blockno) { SoleKeeper(c, dev, blockno, b); }
  }

  lemma ReadBuffers(c: Cache, m: map<nat, Block>, dev: nat, blockno: nat, b: nat)
    requires Coherent(c, m) && Allowed(c, Read(dev, blockno)) && b < NBUF
    ensures var t := ReadInto(c, dev, blockno); |t.s.bufs| == |t.data| == NBUF && BufOk(t, m, b)
  {
    hide Inv, Find, LastFree, Proper, ProperKeys, DiskOk;
    GetInv(c.s, dev, blockno);
    LoadsLatest(c, m, dev, blockno);
    assert BufOk(c, m, b);
  }

  lemma ReadDisk(c: Cache, m: map<nat, Block>, dev: nat, blockno: nat, n: nat)
    requires Coherent(c, m) && Allowed(c, Read(dev, blockno))
    ensures DiskOk(ReadInto(c, dev, blockno), m, n)
  {
    hide Inv, Proper, ProperKeys, BufOk;
    var t := ReadInto(c, dev, blockno);
    assert DiskOk(c, m, n);
    if At(c.disk, n) != At(m, n) {
      var b :| Keeps(c, b, n);
      KeptThrough(c.s, dev, blockno, b);
      assert Keeps(t, b, n);
    }
  }

  /** bget leaves a buffer that is referred to and has data with its key, its data and its references. */
  lemma KeptThrough(s: State, dev: nat, blockno: nat, b: nat)
    requires Get(s, dev, blockno).Got? && b < |s.bufs| && s.bufs[b].refcnt > 0 && s.bufs[b].valid
    ensures var t := Get(s, dev, blockno).s;
      b < |t.bufs| && t.bufs[b].valid && t.bufs[b].refcnt > 0 && t.bufs[b].blockno == s.bufs[b].blockno
  {
    hide LastFree, Find;
  }

  lemma ReadCoherent(c: Cache, m: map<nat, Block>, dev: nat, blockno: nat)
    requires Coherent(c, m) && Allowed(c, Read(dev, blockno))
    ensures Coherent(ReadInto(c, dev, blockno), m)
  {
    hide Inv, Get, Proper, ProperKeys, BufOk, DiskOk, Step;
    var t := ReadInto(c, dev, blockno);
    var g := Get(c.s, dev, blockno);
    GetInv(c.s, dev, blockno);
    RefsInv(g.s, g.b, 0);
    BufsSize(t.s);
    ReadProper(c.s, dev, blockno);
    forall b: nat | b < NBUF ensures BufOk(t, m, b) { ReadBuffers(c, m, dev, blockno, b); }
    forall n: nat ensures DiskOk(t, m, n) { ReadDisk(c, m, dev, blockno, n); }
  }

  lemma ReadProper(s: State, dev: nat, blockno: nat)
    requires Inv(s) && ProperKeys(s) && Proper(dev, blockno) && Get(s, dev, blockno).Got?
    ensures var g := Get(s, dev, blockno); g.b < |g.s.bufs| && ProperKeys(Fill(g.s, g.b))
  {
    hide Inv, Get, Find, LastFree, Proper;
    GetInv(s, dev, blockno);
    StepProper(s, GetOp(dev, blockno));
  }

  /** A change of contents, or a write of them to disk. */
  lemma ChangeCoherent(c: Cache, m: map<nat, Block>, u: Use)
    requires Coherent(c, m) && Allowed(c, u) && (u.Change? || u.Save?)
    ensures Coherent(After(c, u), Flat(m, c, u))
  {
    hide Inv, Proper;
    var t, k := After(c, u), Flat(m, c, u);
    forall b: nat | b < NBUF ensures BufOk(t, k, b) {
      if b != u.b { OnlyOne(c, u.b, b); }
      assert BufOk(c, m, b);
    }
    forall n: nat ensures DiskOk(t, k, n) {
      assert DiskOk(c, m, n) && BufOk(c, m, u.b);
      assert Keeps(t, u.b, c.s.bufs[u.b].blockno);
      if b: nat :| Keeps(c, b, n) { assert Keeps(t, b, n); }
    }
  }

  /** Two buffers with data are for different blocks. */
  lemma OnlyOne(c: Cache, a: nat, b: nat)
    requires Inv(c.s) && ProperKeys(c.s) && a < NBUF && b < NBUF && a != b
    ensures |c.s.bufs| == NBUF
    ensures c.s.bufs[a].valid && c.s.bufs[b].valid ==> c.s.bufs[a].blockno != c.s.bufs[b].blockno
  {
    BufsSize(c.s);
    KeysDiffer(c.s, a, b);
  }

  /** References come and go; the last one goes only from a buffer that is as on disk. */
  lemma RefsCoherent(c: Cache, m: map<nat, Block>, u: Use)
    requires Coherent(c, m) && Allowed(c, u) && (u.Drop? || u.Hold? || u.Loose?)
    ensures Coherent(After(c, u), m)
  {
    hide Inv, Proper, ToFront;
    var t := After(c, u);
    if u.Drop? { ReleaseInv(c.s, u.b); StepProper(c.s, ReleaseOp(u.b)); }
    if u.Hold? { RefsInv(c.s, u.b, c.s.bufs[u.b].refcnt + 1); StepProper(c.s, PinOp(u.b)); }
    if u.Loose? { RefsInv(c.s, u.b, c.s.bufs[u.b].refcnt - 1); StepProper(c.s, UnpinOp(u.b)); }
    BufsSize(t.s);
    forall b: nat | b < NBUF ensures BufOk(t, m, b) { assert BufOk(c, m, b); }
    forall n: nat ensures DiskOk(t, m, n) {
      assert DiskOk(c, m, n) && BufOk(c, m, u.b);
      if b: nat :| Keeps(c, b, n) {
        if b == u.b && t.s.bufs[b].refcnt == 0 {
          assert Clean(c, b);
        } else {
          assert Keeps(t, b, n);
        }
      }
    }
  }

  lemma AfterCoherent(c: Cache, m: map<nat, Block>, u: Use)
    requires Coherent(c, m) && Allowed(c, u)
    ensures Coherent(After(c, u), Flat(m, c, u))
  {
    hide Coherent, Get;
    assert Inv(c.s) by { Sound(c, m); }
    match u
    case Read(dev, blockno) => ReadCoherent(c, m, dev, blockno);
    case Change(b, d) => ChangeCoherent(c, m, u);
    case Save(b) => ChangeCoherent(c, m, u);
    case _ => RefsCoherent(c, m, u);
  }

  lemma Sound(c: Cache, m: map<nat, Block>)
    requires Coherent(c, m)
    ensures Inv(c.s)
  {}

  // ---- runs ----

  /** The caches and the cacheless disks a run passes through, from binit on. */
  ghost predicate Uses(cs: seq<Cache>, us: seq<Use>) {
    && |cs| == |us| + 1 && Initial(cs[0].s) && |cs[0].data| == NBUF
    && forall k {:trigger us[k]} :: 0 <= k < |us| ==>
      Inv(cs[k].s) && Allowed(cs[k], us[k]) && cs[k + 1] == After(cs[k], us[k])
  }

  /** The disk after the first `n` uses, had there been no cache. */
  ghost function FlatAt(cs: seq<Cache>, us: seq<Use>, n: nat): map<nat, Block>
    requires n <= |us| < |cs|
  {
    if n == 0 then cs[0].disk else Flat(FlatAt(cs, us, n - 1), cs[n - 1], us[n - 1])
  }

  lemma {:induction false} RunCoherent(cs: seq<Cache>, us: seq<Use>, n: nat)
    requires Uses(cs, us) && n <= |us|
    ensures Coherent(cs[n], FlatAt(cs, us, n))
  {
    hide Coherent, Inv, After, Allowed, Flat, Initial;
    if n == 0 {
      FirstCoherent(cs[0]);
    } else {
      RunCoherent(cs, us, n - 1);
      assert cs[n] == After(cs[n - 1], us[n - 1]);
      AfterCoherent(cs[n - 1], FlatAt(cs, us, n - 1), us[n - 1]);
    }
  }

  lemma FirstCoherent(c: Cache)
    requires Initial(c.s) && |c.data| == NBUF
    ensures Coherent(c, c.disk)
  {
    InitialInv(c.s);
  }

  /** Whoever reads a block gets what was last put in it, by whatever process and in whatever buffer,
      saved or not: the cache cannot be told from the disk alone. */
  lemma ReadsLatest(cs: seq<Cache>, us: seq<Use>, n: nat)
    requires Uses(cs, us) && n < |us| && us[n].Read?
    ensures var g := Get(cs[n].s, us[n].dev, us[n].blockno);
      && g.Got? && g.b < |cs[n + 1].s.bufs| == |cs[n + 1].data|
      && HasKey(cs[n + 1].s.bufs[g.b], us[n].dev, us[n].blockno) && cs[n + 1].s.bufs[g.b].valid
      && cs[n + 1].data[g.b] == At(FlatAt(cs, us, n), us[n].blockno)
  {
    hide Inv, Initial, DiskOk, ProperKeys, Proper, Find, LastFree;
    RunCoherent(cs, us, n);
    GetInv(cs[n].s, us[n].dev, us[n].blockno);
    var g := Get(cs[n].s, us[n].dev, us[n].blockno);
    assert cs[n + 1] == After(cs[n], us[n]);
    ReadBuffers(cs[n], FlatAt(cs, us, n), us[n].dev, us[n].blockno, g.b);
  }
}
