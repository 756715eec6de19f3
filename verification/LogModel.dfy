/** The redo log of kernel/log.c: what the disk means at every instant. */
module LogModel {
  import opened Params

  const WORDS: nat := 256  // BSIZE / sizeof(int)

  /** A disk block, as the ints the log header is made of. */
  type Block = b: seq<int> | |b| == WORDS witness seq(WORDS, _ => 0)
  type Disk = seq<Block>

  /** Where the log lies: the header at `start`, then the log blocks. */
  datatype Geometry = Geometry(start: nat, size: nat)

  predicate InLog(g: Geometry, b: int) { g.start <= b < g.start + g.size }

  /** The block numbers a header block lists: n of them, after n itself. */
  predicate HeaderOk(h: Block) { 0 <= h[0] <= LOGSIZE }

  function Header(h: Block): seq<int>
    requires HeaderOk(h)
  {
    h[1..1 + h[0]]
  }

  /** A header block that lists `bs`; the ints after the list stay. */
  function WithHeader(h: Block, bs: seq<int>): (r: Block)
    requires |bs| <= LOGSIZE
    ensures HeaderOk(r) && Header(r) == bs
  {
    [|bs|] + bs + h[1 + |bs|..]
  }

  /** Block numbers that may be logged: on the disk and outside the log. */
  predicate HomeBlocks(g: Geometry, d: Disk, bs: seq<int>) {
    forall i :: 0 <= i < |bs| ==> 0 <= bs[i] < |d| && !InLog(g, bs[i])
  }

  predicate DiskOk(g: Geometry, d: Disk) {
    && g.size >= 1 && g.start + g.size <= |d|
    && HeaderOk(d[g.start])
    && |Header(d[g.start])| <= g.size - 1
    && HomeBlocks(g, d, Header(d[g.start]))
  }

  /** Copy log blocks 0..k-1 to the homes `bs` lists. */
  function Install(g: Geometry, d: Disk, bs: seq<int>, k: nat): (r: Disk)
    requires k <= |bs| <= g.size - 1 && g.start + g.size <= |d| && HomeBlocks(g, d, bs)
    ensures |r| == |d| && forall b :: 0 <= b < |d| && InLog(g, b) ==> r[b] == d[b]
  {
    if k == 0 then d else Install(g, d, bs, k - 1)[bs[k - 1] := d[g.start + k]]
  }

  /** The last position of `b` in the first `k` of `bs`, or -1. */
  function Last(bs: seq<int>, k: nat, b: int): (r: int)
    requires k <= |bs|
    ensures -1 <= r < k
    ensures r >= 0 ==> bs[r] == b
    ensures r == -1 <==> b !in bs[..k]
  {
    if k == 0 then -1 else if bs[k - 1] == b then k - 1 else Last(bs, k - 1, b)
  }

  /** What replay leaves in each block. */
  lemma {:induction false} InstallAt(g: Geometry, d: Disk, bs: seq<int>, k: nat, b: nat)
    requires k <= |bs| <= g.size - 1 && g.start + g.size <= |d| && HomeBlocks(g, d, bs) && b < |d|
    ensures Install(g, d, bs, k)[b] == var j := Last(bs, k, b); if j >= 0 then d[g.start + 1 + j] else d[b]
  {
    if k > 0 { InstallAt(g, d, bs, k - 1, b); }
  }

  /** Replay after part of a replay ends where one replay would. */
  lemma InstallTwice(g: Geometry, d: Disk, bs: seq<int>, k: nat, m: nat)
    requires k <= m <= |bs| <= g.size - 1 && g.start + g.size <= |d| && HomeBlocks(g, d, bs)
    ensures Install(g, Install(g, d, bs, k), bs, m) == Install(g, d, bs, m)
  {
    var e := Install(g, d, bs, k);
    forall b: nat | b < |d|
      ensures Install(g, e, bs, m)[b] == Install(g, d, bs, m)[b]
    {
      InstallAt(g, e, bs, m, b);
      InstallAt(g, d, bs, m, b);
      InstallAt(g, d, bs, k, b);
      LastMore(bs, k, m, b);
    }
  }

  lemma LastMore(bs: seq<int>, k: nat, m: nat, b: int)
    requires k <= m <= |bs|
    ensures Last(bs, m, b) == -1 ==> Last(bs, k, b) == -1
  {
    if Last(bs, m, b) == -1 {
      assert bs[..k] == bs[..m][..k];
    }
  }

  /** The disk as recovery would leave it, log area aside. */
  function Durable(g: Geometry, d: Disk): (r: Disk)
    requires DiskOk(g, d)
    ensures |r| == |d|
  {
    var bs := Header(d[g.start]);
    Install(g, d, bs, |bs|)
  }

  /** Equal outside the log. */
  ghost predicate SameHome(g: Geometry, d: Disk, e: Disk) {
    |d| == |e| && forall b {:trigger d[b]} {:trigger e[b]} :: 0 <= b < |d| && !InLog(g, b) ==> d[b] == e[b]
  }

  lemma SameHomeRefl(g: Geometry, d: Disk)
    ensures SameHome(g, d, d)
  {}

  lemma SameHomeTrans(g: Geometry, d: Disk, e: Disk, f: Disk)
    requires SameHome(g, d, e) && SameHome(g, e, f)
    ensures SameHome(g, d, f)
  {}

  /** A disk on which the first `k` copies have been made, and the next copy. */
  lemma InstallNext(g: Geometry, d: Disk, bs: seq<int>, k: nat)
    requires k < |bs| <= g.size - 1 && g.start + g.size <= |d| && HomeBlocks(g, d, bs)
    requires Install(g, d, bs, k) == d
    ensures var e := d[bs[k] := d[g.start + 1 + k]];
      Install(g, e, bs, k + 1) == e && Install(g, e, bs, |bs|) == Install(g, d, bs, |bs|)
  {
    assert d[bs[k] := d[g.start + 1 + k]] == Install(g, d, bs, k + 1);
    InstallTwice(g, d, bs, k + 1, k + 1);
    InstallTwice(g, d, bs, k + 1, |bs|);
  }

  /** Writing the header of a fully written log makes the logged values durable, all at once. */
  lemma HeaderCommits(g: Geometry, d: Disk, bs: seq<int>, h: Block, b: nat)
    requires DiskOk(g, d) && |bs| <= g.size - 1 && |bs| <= LOGSIZE && HomeBlocks(g, d, bs)
    requires HeaderOk(h) && Header(h) == bs && b < |d| && !InLog(g, b)
    ensures DiskOk(g, d[g.start := h])
    ensures Durable(g, d[g.start := h])[b] == var j := Last(bs, |bs|, b); if j >= 0 then d[g.start + 1 + j] else d[b]
  {
    InstallAt(g, d[g.start := h], bs, |bs|, b);
  }

  /** An empty header makes the disk mean what its home blocks hold. */
  lemma EmptyLog(g: Geometry, d: Disk)
    requires DiskOk(g, d) && Header(d[g.start]) == []
    ensures Durable(g, d) == d
  {}
}
