/** The code of kernel/log.c over a disk that remembers every state it has been in. */
module LogCode {
  import opened LogModel
  import opened Params
  import opened LogRuns

  ghost predicate RecoversTo(g: Geometry, d: Disk, c: Disk) {
    DiskOk(g, d) && SameHome(g, Durable(g, d), c)
  }

  class Log {
    const g: Geometry
    var disk: Disk
    var cache: map<int, Block>   // valid buffers
    var n: nat                   // log.lh.n
    var block: seq<int>          // log.lh.block
    var outstanding: int
    var pins: set<int>           // buffers bpin holds in the cache

    ghost var slots: seq<Slot>
    ghost var phase: Phase
    ghost var com: Disk          // the file system as of the last commit
    ghost var trace: seq<Disk>   // the disk after each write: the states a crash can leave

    ghost function S(): State
      requires n <= |block|
      reads this
    {
      State(disk, cache, block[..n], slots, phase, com)
    }

    ghost predicate Valid()
      reads this
    {
      n <= |block| == LOGSIZE && Inv(g, S()) && outstanding == Outstanding(slots) && pins == PinSet(block[..n], phase)
    }

    /** Every disk state from the `from`th write on recovers to `c`. */
    ghost predicate Recovers(from: nat, to: nat, c: Disk)
      reads this
    {
      forall i {:trigger trace[i]} :: from <= i < to && i < |trace| ==> RecoversTo(g, trace[i], c)
    }

    /** bread: a hit, or a miss that recycles any buffer that is neither pinned nor in `held`. */
    method Bread(b: nat, held: set<int>) returns (data: Block)
      requires Valid() && b < |disk|
      modifies this`cache
      ensures Valid() && View(S()) == old(View(S()))
      ensures b in cache && cache[b] == data && data == old(Seen(S(), b))
      ensures forall h :: h in held && h in old(cache) ==> h in cache && cache[h] == old(cache)[h]
    {
      hide Inv, View, PinSet, Pins;
      if b !in cache {
        if * {
          if v :| v in cache && v !in pins && v !in held {
            PinSetIs(S(), v);
            CacheInv(g, S(), Recycle(v));
            CacheView(g, S(), Recycle(v));
            cache := cache - {v};
          }
        }
        CacheInv(g, S(), Fetch(b));
        CacheView(g, S(), Fetch(b));
        cache := cache[b := disk[b]];
      }
      data := cache[b];
    }

    /** bwrite of a buffer just filled: `phase` and `com` say what the write achieves. */
    method Bwrite(b: nat, data: Block, ghost next: Phase, ghost c: Disk)
      requires b < |disk|
      modifies this`disk, this`cache, this`trace, this`phase, this`com
      ensures disk == old(disk)[b := data] && cache == old(cache)[b := data]
      ensures trace == old(trace) + [disk] && phase == next && com == c
    {
      disk := disk[b := data];
      cache := cache[b := data];
      trace := trace + [disk];
      phase, com := next, c;
    }
  
    /** write_log: copy the logged buffers to the log. */
    method WriteLog()
      requires Valid() && phase == LogStep(0)
      modifies this`disk, this`cache, this`trace, this`phase, this`com
      ensures Valid() && phase == LogStep(n) && com == old(com) && SameHome(g, View(S()), old(View(S())))
      ensures old(trace) <= trace && Recovers(|old(trace)|, |trace|, com)
    {
      hide Inv, View, SameHome, RecoversTo;
      var tail := 0;
      SameHomeRefl(g, View(S()));
      while tail < n
        invariant tail <= n && Valid() && phase == LogStep(tail) && com == old(com)
        invariant SameHome(g, View(S()), old(View(S())))
        invariant old(trace) <= trace && Recovers(|old(trace)|, |trace|, com)
      {
        LogSlot(g, S());
        var to := Bread(g.start + tail + 1, {});
        var from := Bread(block[tail], {g.start + tail + 1});
        LogSlot(g, S());
        ghost var s := S();
        CopyStep(g, s, old(View(S())));
        Bwrite(g.start + tail + 1, from, LogStep(tail + 1), com);
        assert S() == WriteStep(g, s);
        tail := tail + 1;
      }
    }
  
    /** The header buffer filled by write_head: n, then the first n block numbers. */
    method FillHeader(was: Block) returns (hb: Block)
      requires n <= |block| == LOGSIZE
      ensures hb == WithHeader(was, block[..n])
    {
      hb := was[0 := n];
      var i := 0;
      while i < n
        invariant i <= n && |hb| == WORDS && hb[0] == n
        invariant forall k :: 0 <= k < i ==> hb[1 + k] == block[k]
        invariant forall k :: 1 + i <= k < WORDS ==> hb[k] == was[k]
      {
        hb := hb[1 + i := block[i]];
        i := i + 1;
      }
      assert hb[1..1 + n] == block[..n] && hb[1 + n..] == was[1 + n..];
      assert hb == [n] + hb[1..1 + n] + hb[1 + n..];
    }

    /** write_head with a transaction: the commit point. */
    method WriteHeadCommit()
      requires Valid() && phase == LogStep(n) && n > 0
      modifies this`disk, this`cache, this`trace, this`phase, this`com
      ensures Valid() && phase == InstallStep(0) && SameHome(g, View(S()), old(View(S())))
      ensures com == old(View(S())) && trace == old(trace) + [disk] && RecoversTo(g, disk, com)
    {
      hide Inv, View, SameHome, RecoversTo;
      LogSlot(g, S());
      SameHomeRefl(g, View(S()));
      var buf := Bread(g.start, {});
      var hb := FillHeader(buf);
      ghost var s := S();
      CopyStep(g, s, View(s));
      Bwrite(g.start, hb, InstallStep(0), View(s));
      assert S() == WriteStep(g, s);
    }

    /** One round of install_trans. */
    method InstallOne(tail: nat, recovering: bool, ghost v: Disk)
      requires Valid() && tail < n && phase == if recovering then RecoverStep(tail) else InstallStep(tail)
      requires !recovering ==> SameHome(g, View(S()), v)
      modifies this`disk, this`cache, this`trace, this`phase, this`com, this`pins
      ensures Valid() && com == old(com)
      ensures phase == if recovering then RecoverStep(tail + 1) else InstallStep(tail + 1)
      ensures !recovering ==> SameHome(g, View(S()), v)
      ensures trace == old(trace) + [disk] && RecoversTo(g, disk, com)
    {
      hide Inv, View, SameHome, RecoversTo, PinSet;
      LogSlot(g, S());
      var lbuf := Bread(g.start + tail + 1, {});
      var dbuf := Bread(block[tail], {g.start + tail + 1});
      ghost var s := S();
      if recovering { RecoverCopy(g, s); } else { CopyStep(g, s, v); }
      PinStep(g, s);
      Bwrite(block[tail], lbuf, if recovering then RecoverStep(tail + 1) else InstallStep(tail + 1), com);
      if !recovering {
        pins := pins - {block[tail]};
      }
      assert S() == WriteStep(g, s);
    }

    /** install_trans: copy the log home, in a commit or in recovery. */
    method InstallTrans(recovering: bool)
      requires Valid() && phase == if recovering then RecoverStep(0) else InstallStep(0)
      modifies this`disk, this`cache, this`trace, this`phase, this`com, this`pins
      ensures Valid() && com == old(com)
      ensures phase == if recovering then RecoverStep(n) else InstallStep(n)
      ensures !recovering ==> SameHome(g, View(S()), old(View(S())))
      ensures old(trace) <= trace && Recovers(|old(trace)|, |trace|, com)
    {
      hide Inv, View, SameHome, RecoversTo, PinSet;
      var tail := 0;
      SameHomeRefl(g, View(S()));
      while tail < n
        invariant tail <= n && Valid() && com == old(com)
        invariant phase == if recovering then RecoverStep(tail) else InstallStep(tail)
        invariant !recovering ==> SameHome(g, View(S()), old(View(S())))
        invariant old(trace) <= trace && Recovers(|old(trace)|, |trace|, com)
      {
        InstallOne(tail, recovering, old(View(S())));
        tail := tail + 1;
      }
    }

    /** log.lh.n = 0 and write_head: the transaction is erased. */
    method WriteHeadErase()
      requires Valid() && (phase == InstallStep(n) || phase == RecoverStep(n))
      modifies this`disk, this`cache, this`n, this`trace, this`phase, this`com
      ensures Valid() && phase == Running && n == 0 && com == old(com)
      ensures old(phase).InstallStep? ==> SameHome(g, View(S()), old(View(S())))
      ensures trace == old(trace) + [disk] && RecoversTo(g, disk, com)
    {
      hide Inv, View, SameHome, RecoversTo;
      LogSlot(g, S());
      SameHomeRefl(g, View(S()));
      var buf := Bread(g.start, {});
      ghost var s := S();
      if phase.InstallStep? { CopyStep(g, s, View(s)); } else { RecoverCopy(g, s); }
      n := 0;
      var hb := FillHeader(buf);
      Bwrite(g.start, hb, Running, com);
      assert S() == WriteStep(g, s);
    }

    /** commit: crash after any of its writes, and recovery brings back the whole old file
        system or, from the header write on, the whole new one. */
    method Commit() returns (ghost point: nat)
      requires Valid() && (if n > 0 then phase == LogStep(0) else phase == Running)
      modifies this`disk, this`cache, this`n, this`trace, this`phase, this`com, this`pins
      ensures Valid() && phase == Running && n == 0 && SameHome(g, View(S()), old(View(S())))
      ensures old(trace) <= trace && |old(trace)| <= point <= |trace|
      ensures Recovers(|old(trace)|, point, old(com)) && Recovers(point, |trace|, old(View(S())))
      ensures old(n) > 0 ==> point < |trace|
    {
      hide Inv, View, SameHome, RecoversTo;
      ghost var v := View(S());
      SameHomeRefl(g, v);
      point := |trace|;
      if n > 0 {
        WriteLog();
        point := |trace|;
        ghost var t0, v1 := trace, View(S());
        WriteHeadCommit();
        SameHomeTrans(g, View(S()), v1, v);
        ghost var t1, v2 := trace, View(S());
        InstallTrans(false);
        SameHomeTrans(g, View(S()), v2, v);
        ghost var v3 := View(S());
        WriteHeadErase();
        SameHomeTrans(g, View(S()), v3, v);
        forall i | point <= i < |trace| ensures RecoversTo(g, trace[i], v) {
          RecoversSame(g, trace[i], v1, v);
        }
      }
    }
  
    /** read_head: the header on disk, into memory. */
    method ReadHead()
      requires |block| == LOGSIZE && DiskOk(g, disk) && cache == map[]
      modifies this`n, this`block, this`cache
      ensures |block| == LOGSIZE && n <= LOGSIZE && block[..n] == Header(disk[g.start])
      ensures forall b :: b in cache ==> 0 <= b < |disk| && cache[b] == disk[b]
    {
      var lh := disk[g.start];
      cache := map[g.start := lh];
      n := lh[0];
      var i := 0;
      while i < n
        invariant i <= n == lh[0] && |block| == LOGSIZE && cache == map[g.start := lh]
        invariant block[..i] == lh[1..1 + i]
      {
        block := block[i := lh[1 + i]];
        i := i + 1;
      }
    }

    /** initlog after a crash left the disk as `d`: recover_from_log. Whatever file system the
        disk stands for is back, whole, and a crash at any write here changes nothing. */
    constructor (geo: Geometry, d: Disk, procs: nat)
      requires DiskOk(geo, d)
      ensures Valid() && g == geo && phase == Running && n == 0 && |slots| == procs
      ensures SameHome(g, View(S()), Durable(geo, d)) && com == Durable(geo, d)
      ensures Recovers(0, |trace|, Durable(geo, d))
    {
      g, disk, cache, n, block, outstanding, pins := geo, d, map[], 0, seq(LOGSIZE, _ => 0), 0, {};
      slots, phase, com, trace := seq(procs, _ => Idle), RecoverStep(0), Durable(geo, d), [];
      new;
      RecoverFromLog();
    }

    /** recover_from_log, on a machine that has just booted. */
    method RecoverFromLog()
      requires |block| == LOGSIZE && DiskOk(g, disk) && cache == map[] && phase == RecoverStep(0) && trace == []
      requires com == Durable(g, disk) && slots == seq(|slots|, _ => Idle) && outstanding == 0 && pins == {}
      modifies this`disk, this`cache, this`n, this`block, this`trace, this`phase, this`com, this`pins
      ensures Valid() && phase == Running && n == 0
      ensures com == old(com) && SameHome(g, View(S()), com) && Recovers(0, |trace|, com)
    {
      hide Inv, View, SameHome, RecoversTo, DiskOk, Durable;
      ReadHead();
      AllIdle(slots);
      BootInv(g, S());
      InstallTrans(true);
      WriteHeadErase();
      QuietView(g, S());
    }

    /** One round of begin_op's loop by process `p`: admitted, or it must sleep. */
    method BeginOp(ghost p: nat) returns (admitted: bool)
      requires Valid() && phase == Running && p < |slots| && slots[p].Idle?
      modifies this`outstanding, this`slots
      ensures Valid() && admitted == Enabled(g, old(S()), Begin(p))
      ensures S() == if admitted then Next(g, old(S()), Begin(p)) else old(S())
    {
      hide Inv;
      SlotChange(slots, p, Active(MAXOPBLOCKS));
      if n + (outstanding + 1) * MAXOPBLOCKS > LOGSIZE {
        return false;
      }
      BeginInv(g, S(), p);
      outstanding := outstanding + 1;
      slots := slots[p := Active(MAXOPBLOCKS)];
      return true;
    }

    /** log_write of buffer `b`, whose new contents are `data`, by process `p`; `ok` is false
        for a panic. The block is recorded once however often it is written. */
    method LogWrite(ghost p: nat, b: int, data: Block) returns (ok: bool)
      requires Valid() && phase == Running && p < |slots| && slots[p].Active?
      requires 0 <= b < |disk| && !InLog(g, b) && (b in block[..n] || slots[p].left > 0)
      modifies this`cache, this`n, this`block, this`slots, this`pins
      ensures ok == !Full(g, old(S()))
      ensures Valid() && (ok ==> S() == Next(g, old(S()), Update(p, b, data))) && (!ok ==> S() == old(S()))
      ensures ok ==> View(S()) == old(View(S()))[b := data] && b in block[..n]
    {
      hide Inv, View, PinSet;
      if n >= LOGSIZE || n >= g.size - 1 {
        return false;
      }
      UpdateInv(g, S(), p, b, data);
      UpdateView(g, S(), p, b, data);
      ghost var lh := block[..n];
      var i := 0;
      while i < n && block[i] != b
        invariant i <= n && b !in lh[..i]
      {
        i := i + 1;
      }
      assert b in lh <==> i < n by { assert i == n ==> lh[..i] == lh; }
      if i == n {
        SlotChange(slots, p, Active(slots[p].left - 1));
        slots := slots[p := Active(slots[p].left - 1)];
      }
      block := block[i := b];
      if i == n {
        PinMore(lh, b);
        pins := pins + {b};
        n := n + 1;
        assert block[..n] == lh + [b];
      } else {
        assert block[..n] == lh;
      }
      cache := cache[b := data];
      return true;
    }

    /** end_op: the last operation out commits everything logged since the last commit. */
    method EndOp(ghost p: nat) returns (ghost point: nat)
      requires Valid() && phase == Running && p < |slots| && slots[p].Active?
      modifies this
      ensures Valid() && phase == Running && SameHome(g, View(S()), old(View(S())))
      ensures slots == old(slots)[p := Idle] && old(trace) <= trace && |old(trace)| <= point <= |trace|
      ensures Recovers(|old(trace)|, point, old(com)) && Recovers(point, |trace|, old(View(S())))
      ensures Outstanding(slots) > 0 ==> trace == old(trace) && S() == Next(g, old(S()), End(p))
      ensures Outstanding(slots) == 0 ==> n == 0
    {
      hide Inv, View, SameHome, RecoversTo;
      ghost var s := S();
      SlotChange(slots, p, Idle);
      EndInv(g, s, p);
      CommitKeepsView(g, s, End(p));
      outstanding := outstanding - 1;
      slots := slots[p := Idle];
      point := |trace|;
      if outstanding == 0 {
        phase := if n > 0 then LogStep(0) else Running;
        ghost var t := S();
        assert t == Next(g, s, End(p));
        point := Commit();
        SameHomeTrans(g, View(S()), View(t), View(s));
        forall i | point <= i < |trace| ensures RecoversTo(g, trace[i], View(s)) {
          RecoversSame(g, trace[i], View(t), View(s));
        }
      }
    }
  }

  /** What any write of a commit keeps. */
  lemma CopyStep(g: Geometry, s: State, v: Disk)
    requires Inv(g, s) && (s.phase.LogStep? || s.phase.InstallStep?) && SameHome(g, View(s), v)
    ensures var t := WriteStep(g, s);
      Inv(g, t) && SameHome(g, View(t), v) && RecoversTo(g, t.disk, t.committed)
  {
    hide Inv, View, SameHome, Durable, DiskOk;
    WriteInv(g, s);
    CommitKeepsView(g, s, Write);
    SameHomeTrans(g, View(WriteStep(g, s)), View(s), v);
    DurableIsCommitted(g, WriteStep(g, s));
  }

  lemma RecoversSame(g: Geometry, d: Disk, c: Disk, v: Disk)
    requires RecoversTo(g, d, c) && SameHome(g, c, v)
    ensures RecoversTo(g, d, v)
  {
    hide SameHome, Durable, DiskOk;
    SameHomeTrans(g, Durable(g, d), c, v);
  }

  lemma RecoverCopy(g: Geometry, s: State)
    requires Inv(g, s) && s.phase.RecoverStep?
    ensures var t := WriteStep(g, s);
      Inv(g, t) && t.committed == s.committed && RecoversTo(g, t.disk, t.committed)
  {
    hide Inv, SameHome, Durable, DiskOk;
    WriteInv(g, s);
    DurableIsCommitted(g, WriteStep(g, s));
  }

  /** The blocks the next copy of a commit or a recovery works on. */
  lemma LogSlot(g: Geometry, s: State)
    requires Inv(g, s)
    ensures g.start + g.size <= |s.disk| && |s.lh| <= g.size - 1
    ensures forall i :: 0 <= i < |s.lh| ==> 0 <= s.lh[i] < |s.disk| && !InLog(g, s.lh[i])
    ensures forall i {:trigger s.lh[i]} :: Unpinned(s) <= i < |s.lh| ==> s.lh[i] in s.cache
  {}

  /** A block new to the log is pinned, and the others stay so. */
  lemma PinMore(lh: seq<int>, b: int)
    requires b !in lh
    ensures PinSet(lh + [b], Running) == PinSet(lh, Running) + {b}
  {
    hide IndexOf;
  }

  /** A round of install_trans unpins the block it has copied home. */
  lemma PinStep(g: Geometry, s: State)
    requires Inv(g, s) && (s.phase.InstallStep? || s.phase.RecoverStep?) && s.phase.i < |s.lh|
    ensures s.phase.InstallStep? ==>
      PinSet(s.lh, InstallStep(s.phase.i + 1)) == PinSet(s.lh, s.phase) - {s.lh[s.phase.i]}
    ensures s.phase.RecoverStep? ==> PinSet(s.lh, RecoverStep(s.phase.i + 1)) == PinSet(s.lh, s.phase)
  {
    hide Coherent, PhaseOk, IndexOf;
  }

  lemma BootInv(g: Geometry, s: State)
    requires DiskOk(g, s.disk) && s.lh == Header(s.disk[g.start]) && s.phase == RecoverStep(0)
    requires s.committed == Durable(g, s.disk) && s.slots == seq(|s.slots|, _ => Idle)
    requires forall b :: b in s.cache ==> 0 <= b < |s.disk| && s.cache[b] == s.disk[b]
    ensures Inv(g, s)
  {
    AllIdle(s.slots);
  }
}
