/** Who asks the buffer cache for which block: the file system reads device 1, the swap area is
    read as device 0, and both name sectors of one disk. */
module DiskUse {
  import opened Params
  import Buf = BufModel
  import Fs = FsModel
  import FsCode
  import SwapCode
  import SwapModel

  /** A block number the file system may have in hand: metadata, what balloc returns, or what an
      inode's slot names. */
  datatype FsBlock = Meta(b: nat) | Fresh(b: nat) | Named(i: nat, k: nat)

  /** A mounted file system and who owns its blocks. */
  datatype Mount = Mount(sb: FsCode.Super, d: Fs.Disk, own: map<nat, Fs.Place>)

  ghost predicate Mounted(m: Mount) {
    m.sb.nmeta <= FsCode.Limit(m.sb) && Fs.Inv(m.d, m.own, m.sb.nmeta, FsCode.Limit(m.sb))
  }

  /** The file system of `m` reads block `b` because of `f`. */
  ghost predicate FsReads(m: Mount, f: FsBlock, b: nat) {
    && Mounted(m)
    && match f
       case Meta(x) => b == x < m.sb.nmeta
       case Fresh(x) => b == x && m.sb.nmeta <= x < FsCode.Limit(m.sb)
       case Named(i, k) => i < |m.d.inodes| && k < Fs.NSLOTS && b != 0 && b == Fs.Ref(m.d, i, k)
  }

  /** Part `i` of swap slot `slot`, as swapread and swapwrite address it. */
  ghost predicate SwapReads(slot: nat, i: nat, b: nat) {
    slot < SwapModel.NSLOTS && i < 4 && b == SwapCode.SlotBlock(slot) + i
  }

  /** The call comes from one of the two. */
  ghost predicate KernelAsks(dev: nat, b: nat) {
    || (dev == 1 && exists m, f :: FsReads(m, f, b))
    || (dev == 0 && exists slot: nat, i: nat :: SwapReads(slot, i, b))
  }

  /** An inode never names a block of the swap area. */
  lemma FilesBelowSwap(m: Mount, f: FsBlock, b: nat)
    requires FsReads(m, f, b)
    ensures b < FsCode.Limit(m.sb) <= SWAPBASE
  {
    if f.Named? {
      assert Fs.RefOwned(m.d, m.own, f.i, f.k);
      assert b in m.own;
    }
  }

  lemma AsksProperly(dev: nat, b: nat)
    requires KernelAsks(dev, b)
    ensures Buf.Proper(dev, b)
  {
    hide Fs.Inv;
    if dev == 1 {
      var m, f :| FsReads(m, f, b);
      FilesBelowSwap(m, f, b);
    }
  }

  /** In every run whose calls come from the file system and from swapping, two buffers never
      cache one sector. */
  lemma NoAliases(ss: seq<Buf.State>, ops: seq<Buf.Op>, n: nat, a: nat, b: nat)
    requires Buf.Run(ss, ops) && n < |ss| && a < NBUF && b < NBUF && a != b
    requires forall k :: 0 <= k < |ops| && ops[k].GetOp? ==> KernelAsks(ops[k].dev, ops[k].blockno)
    ensures |ss[n].bufs| == NBUF
    ensures Buf.InUse(ss[n].bufs[a]) && Buf.InUse(ss[n].bufs[b]) ==> ss[n].bufs[a].blockno != ss[n].bufs[b].blockno
  {
    hide Buf.Run, KernelAsks;
    forall k | 0 <= k < |ops| && ops[k].GetOp? ensures Buf.Proper(ops[k].dev, ops[k].blockno) {
      AsksProperly(ops[k].dev, ops[k].blockno);
    }
    Buf.NoAliases(ss, ops, n, a, b);
  }
}
