/** Every run of the log: concurrent operations, group commit, cache recycling, crashes at
    any write and recoveries that may crash again. */
module LogRuns {
  import opened LogModel
  import opened Params

  /** A file-system operation in progress, with the fresh blocks it may still log. */
  datatype Slot = Idle | Active(left: nat)

  datatype Phase =
    | Running               // operations may begin; the log on disk is empty
    | LogStep(i: nat)       // commit: log block i is next, then the header
    | InstallStep(i: nat)   // commit: the header is on disk, home block i is next, then the erase
    | RecoverStep(i: nat)   // after a crash: home block i is next, then the erase

  datatype State = State(
    disk: Disk,
    cache: map<int, Block>,  // contents of the valid buffers
    lh: seq<int>,            // log.lh
    slots: seq<Slot>,        // who is between begin_op and end_op
    phase: Phase,
    committed: Disk          // bookkeeping: the file system as of the last commit
  )

  function Outstanding(slots: seq<Slot>): nat {
    if slots == [] then 0 else (if slots[0].Active? then 1 else 0) + Outstanding(slots[1..])
  }

  /** Fresh blocks that operations in progress may still append. */
  function Unused(slots: seq<Slot>): nat {
    if slots == [] then 0 else (if slots[0].Active? then slots[0].left else 0) + Unused(slots[1..])
  }

  function Weight(x: Slot): nat { if x.Active? then x.left else 0 }
  function One(x: Slot): nat { if x.Active? then 1 else 0 }

  lemma {:induction false} SlotChange(slots: seq<Slot>, p: nat, x: Slot)
    requires p < |slots|
    ensures Unused(slots[p := x]) == Unused(slots) - Weight(slots[p]) + Weight(x)
    ensures Outstanding(slots[p := x]) == Outstanding(slots) - One(slots[p]) + One(x)
  {
    if p == 0 {
      assert slots[p := x][1..] == slots[1..];
    } else {
      assert slots[p := x][1..] == slots[1..][p - 1 := x];
      SlotChange(slots[1..], p - 1, x);
    }
  }

  lemma {:induction false} AllIdle(slots: seq<Slot>)
    requires forall p :: 0 <= p < |slots| ==> slots[p].Idle?
    ensures Outstanding(slots) == 0 && Unused(slots) == 0
  {
    if slots != [] { AllIdle(slots[1..]); }
  }

  /** What a reader sees in block `b`. */
  function Seen(s: State, b: nat): Block
    requires b < |s.disk|
  {
    if b in s.cache then s.cache[b] else s.disk[b]
  }

  /** The file system as readers see it. */
  function View(s: State): (v: Disk)
    ensures |v| == |s.disk|
  {
    seq(|s.disk|, b requires 0 <= b < |s.disk| => Seen(s, b))
  }

  /** The first place of `b` in `q`, or the end. */
  function IndexOf(q: seq<int>, b: int): (r: nat)
    ensures r <= |q| && (r < |q| ==> q[r] == b) && (r < |q| <==> b in q)
  {
    if q == [] || q[0] == b then 0 else 1 + IndexOf(q[1..], b)
  }

  /** Logged blocks before this place have been unpinned by install_trans, or never were pinned. */
  function UnpinnedAt(lh: seq<int>, phase: Phase): nat {
    match phase
    case InstallStep(i) => i
    case RecoverStep(i) => |lh|
    case _ => 0
  }

  function Unpinned(s: State): nat { UnpinnedAt(s.lh, s.phase) }

  /** Block `b` is pinned in the cache. */
  predicate Pins(s: State, b: int) { Unpinned(s) <= IndexOf(s.lh, b) < |s.lh| }

  /** The blocks that are pinned, from the logged list and the phase alone. */
  function PinSet(lh: seq<int>, phase: Phase): set<int> {
    set b | b in lh && UnpinnedAt(lh, phase) <= IndexOf(lh, b)
  }

  lemma PinSetIs(s: State, b: int)
    ensures b in PinSet(s.lh, s.phase) <==> Pins(s, b)
  {}

  /** Buffers hold what is on disk, unless pinned; pinned ones stay in the cache. */
  ghost predicate Coherent(s: State) {
    && (forall b {:trigger b in s.cache} :: b in s.cache ==>
          0 <= b < |s.disk| && (s.cache[b] == s.disk[b] || Pins(s, b)))
    && (forall i {:trigger s.lh[i]} :: Unpinned(s) <= i < |s.lh| ==> s.lh[i] in s.cache)
  }

  ghost predicate DistinctInts(q: seq<int>) { forall i, j :: 0 <= i < j < |q| ==> q[i] != q[j] }

  /** Log blocks `lo` up to `hi` hold the logged buffers. */
  ghost predicate Logged(g: Geometry, s: State, lo: nat, hi: nat) {
    && lo <= hi <= |s.lh| && g.start + |s.lh| < |s.disk|
    && forall j {:trigger s.lh[j]} :: lo <= j < hi ==> s.lh[j] in s.cache && s.disk[g.start + 1 + j] == s.cache[s.lh[j]]
  }

  ghost predicate Budget(g: Geometry, s: State) {
    && |s.lh| + Unused(s.slots) <= LOGSIZE && Capped(s.slots)
    && |s.lh| <= g.size - 1
    && HomeBlocks(g, s.disk, s.lh)
    && (!s.phase.Running? ==> Outstanding(s.slots) == 0)
    && (!s.phase.RecoverStep? ==> DistinctInts(s.lh))
  }

  ghost predicate PhaseOk(g: Geometry, s: State)
    requires DiskOk(g, s.disk)
  {
    match s.phase
    case Running => Header(s.disk[g.start]) == [] && SameHome(g, s.disk, s.committed)
    case LogStep(i) => Header(s.disk[g.start]) == [] && SameHome(g, s.disk, s.committed) && Logged(g, s, 0, i)
      && s.lh != []
    case InstallStep(i) =>
      && i <= |s.lh| && Header(s.disk[g.start]) == s.lh && Logged(g, s, i, |s.lh|)
      && SameHome(g, Durable(g, s.disk), s.committed) && SameHome(g, View(s), s.committed)
      && HomeBlocks(g, s.disk, s.lh) && Install(g, s.disk, s.lh, i) == s.disk
    case RecoverStep(i) =>
      && Header(s.disk[g.start]) == s.lh && i <= |s.lh|
      && SameHome(g, Durable(g, s.disk), s.committed)
      && HomeBlocks(g, s.disk, s.lh) && Install(g, s.disk, s.lh, i) == s.disk
  }

  ghost predicate Inv(g: Geometry, s: State) {
    && DiskOk(g, s.disk) && |s.committed| == |s.disk|
    && Coherent(s) && Budget(g, s) && PhaseOk(g, s)
  }

  // ---- steps ----

  datatype Action =
    | Begin(p: nat)                          // begin_op gets past its tests
    | Update(p: nat, b: int, data: Block)    // bread, change the buffer, log_write, brelse
    | End(p: nat)                            // end_op; the last one starts a commit
    | Fetch(b: int)                          // a read brings a block into the cache
    | Recycle(b: int)                        // bget reuses an unpinned buffer
    | Write                                  // the next bwrite of a commit or a recovery
    | Crash                                  // power fails; the machine boots again

  /** The first test of log_write panics. */
  predicate Full(g: Geometry, s: State) { |s.lh| >= LOGSIZE || |s.lh| >= g.size - 1 }

  /** When a step can happen. An operation promises at most MAXOPBLOCKS fresh blocks. */
  predicate Enabled(g: Geometry, s: State, a: Action) {
    match a
    case Begin(p) =>
      && s.phase.Running? && p < |s.slots| && s.slots[p].Idle?
      && |s.lh| + (Outstanding(s.slots) + 1) * MAXOPBLOCKS <= LOGSIZE
    case Update(p, b, data) =>
      && s.phase.Running? && p < |s.slots| && s.slots[p].Active? && !Full(g, s)
      && 0 <= b < |s.disk| && !InLog(g, b) && (b in s.lh || s.slots[p].left > 0)
    case End(p) => s.phase.Running? && p < |s.slots| && s.slots[p].Active?
    case Fetch(b) => 0 <= b < |s.disk| && b !in s.cache
    case Recycle(b) => b in s.cache && !Pins(s, b)
    case Write => !s.phase.Running?
    case Crash => true
  }

  function EndStep(s: State, p: nat): State
    requires p < |s.slots|
  {
    var t := s.(slots := s.slots[p := Idle]);
    if Outstanding(t.slots) == 0 && t.lh != [] then t.(phase := LogStep(0)) else t
  }

  /** A buffer is overwritten and written to disk. */
  function BWrite(s: State, b: nat, data: Block): State
    requires b < |s.disk|
  {
    s.(disk := s.disk[b := data], cache := s.cache[b := data])
  }

  function WriteStep(g: Geometry, s: State): State
    requires Inv(g, s) && !s.phase.Running?
  {
    match s.phase
    case LogStep(i) =>
      if i < |s.lh| then
        BWrite(s, g.start + 1 + i, s.cache[s.lh[i]]).(phase := LogStep(i + 1))
      else
        BWrite(s, g.start, WithHeader(Seen(s, g.start), s.lh)).(phase := InstallStep(0), committed := View(s))
    case InstallStep(i) =>
      if i < |s.lh| then
        BWrite(s, s.lh[i], Seen(s, g.start + 1 + i)).(phase := InstallStep(i + 1))
      else
        BWrite(s, g.start, WithHeader(Seen(s, g.start), [])).(phase := Running, lh := [])
    case RecoverStep(i) =>
      if i < |s.lh| then
        BWrite(s, s.lh[i], Seen(s, g.start + 1 + i)).(phase := RecoverStep(i + 1))
      else
        BWrite(s, g.start, WithHeader(Seen(s, g.start), [])).(phase := Running, lh := [])
  }

  function Next(g: Geometry, s: State, a: Action): State
    requires Inv(g, s) && Enabled(g, s, a)
  {
    match a
    case Begin(p) => s.(slots := s.slots[p := Active(MAXOPBLOCKS)])
    case Update(p, b, data) =>
      if b in s.lh then s.(cache := s.cache[b := data])
      else s.(cache := s.cache[b := data], lh := s.lh + [b], slots := s.slots[p := Active(s.slots[p].left - 1)])
    case End(p) => EndStep(s, p)
    case Fetch(b) => s.(cache := s.cache[b := s.disk[b]])
    case Recycle(b) => s.(cache := s.cache - {b})
    case Write => WriteStep(g, s)
    case Crash =>
      s.(cache := map[], lh := Header(s.disk[g.start]), slots := seq(|s.slots|, _ => Idle), phase := RecoverStep(0))
  }

  // ---- every step keeps the invariant ----

  lemma BeginInv(g: Geometry, s: State, p: nat)
    requires Inv(g, s) && Enabled(g, s, Begin(p))
    ensures Inv(g, Next(g, s, Begin(p)))
  {
    SlotChange(s.slots, p, Active(MAXOPBLOCKS));
    UnusedCapped(s.slots);
  }

  /** Each operation holds at most MAXOPBLOCKS, so the admission test covers what they hold. */
  ghost predicate Capped(slots: seq<Slot>) {
    forall p {:trigger slots[p]} :: 0 <= p < |slots| && slots[p].Active? ==> slots[p].left <= MAXOPBLOCKS
  }

  lemma {:induction false} UnusedCapped(slots: seq<Slot>)
    requires Capped(slots)
    ensures Unused(slots) <= Outstanding(slots) * MAXOPBLOCKS
  {
    if slots != [] {
      assert forall p :: 0 <= p < |slots[1..]| ==> slots[1..][p] == slots[p + 1];
      UnusedCapped(slots[1..]);
    }
  }

  lemma UpdateInv(g: Geometry, s: State, p: nat, b: int, data: Block)
    requires Inv(g, s) && Enabled(g, s, Update(p, b, data))
    ensures Inv(g, Next(g, s, Update(p, b, data)))
  {
    if b !in s.lh { SlotChange(s.slots, p, Active(s.slots[p].left - 1)); }
  }

  /** From log_write on readers see the new contents of the block, and the old of every other. */
  lemma UpdateView(g: Geometry, s: State, p: nat, b: int, data: Block)
    requires Inv(g, s) && Enabled(g, s, Update(p, b, data))
    ensures View(Next(g, s, Update(p, b, data))) == View(s)[b := data]
  {
    hide Inv;
    var t := Next(g, s, Update(p, b, data));
    forall x: nat | x < |s.disk| ensures Seen(t, x) == if x == b then data else Seen(s, x) {}
  }

  lemma EndInv(g: Geometry, s: State, p: nat)
    requires Inv(g, s) && Enabled(g, s, End(p))
    ensures Inv(g, Next(g, s, End(p)))
  {
    SlotChange(s.slots, p, Idle);
  }

  /** Readers cannot tell whether a clean block is cached. */
  lemma CacheView(g: Geometry, s: State, a: Action)
    requires Inv(g, s) && Enabled(g, s, a) && (a.Fetch? || a.Recycle?)
    ensures View(Next(g, s, a)) == View(s)
  {
    hide PhaseOk, Budget;
    var t := Next(g, s, a);
    forall b: nat | b < |s.disk| ensures Seen(t, b) == Seen(s, b) {}
  }

  lemma PinsAt(s: State, j: nat)
    requires Unpinned(s) <= j < |s.lh| && DistinctInts(s.lh)
    ensures Pins(s, s.lh[j])
  {
    hide IndexOf;
  }

  lemma CacheCoherent(g: Geometry, s: State, a: Action)
    requires Inv(g, s) && Enabled(g, s, a) && (a.Fetch? || a.Recycle?)
    ensures Coherent(Next(g, s, a))
    ensures forall j {:trigger s.lh[j]} :: Unpinned(s) <= j < |s.lh| ==>
      s.lh[j] in s.cache && s.lh[j] in Next(g, s, a).cache && Next(g, s, a).cache[s.lh[j]] == s.cache[s.lh[j]]
  {
    hide PhaseOk, View, Seen, DistinctInts, Pins;
    var t := Next(g, s, a);
    forall j | Unpinned(s) <= j < |s.lh|
      ensures s.lh[j] in s.cache && s.lh[j] in t.cache && t.cache[s.lh[j]] == s.cache[s.lh[j]]
    {
      PinsAt(s, j);
    }
    forall b | b in t.cache ensures t.cache[b] == t.disk[b] || Pins(t, b) { PinsSame(s, t, b); }
  }

  lemma CacheInv(g: Geometry, s: State, a: Action)
    requires Inv(g, s) && Enabled(g, s, a) && (a.Fetch? || a.Recycle?)
    ensures Inv(g, Next(g, s, a))
  {
    hide View, Seen, SameHome, Install, Durable, Coherent, Pins, DistinctInts;
    CacheView(g, s, a);
    CacheCoherent(g, s, a);
  }

  lemma CrashInv(g: Geometry, s: State)
    requires Inv(g, s)
    ensures Inv(g, Next(g, s, Crash))
  {
    var t := Next(g, s, Crash);
    AllIdle(t.slots);
  }

  /** Writing a block of the log area leaves pinned buffers and home blocks alone. */
  lemma LogAreaWrite(g: Geometry, s: State, b: nat, data: Block)
    requires DiskOk(g, s.disk) && Coherent(s) && HomeBlocks(g, s.disk, s.lh) && InLog(g, b)
    ensures b < |s.disk| && b !in s.lh && Coherent(BWrite(s, b, data))
    ensures forall j {:trigger s.lh[j]} :: 0 <= j < |s.lh| && s.lh[j] in s.cache ==>
      s.lh[j] in BWrite(s, b, data).cache && BWrite(s, b, data).cache[s.lh[j]] == s.cache[s.lh[j]]
    ensures forall x: nat {:trigger Seen(s, x)} :: x < |s.disk| && !InLog(g, x) ==>
      Seen(BWrite(s, b, data), x) == Seen(s, x)
  {
    hide IndexOf, HeaderOk, Header;
  }

  /** Home blocks stay the same when only the log area changes. */
  lemma LogAreaHome(g: Geometry, s: State, b: nat, data: Block, c: Disk)
    requires InLog(g, b) && b < |s.disk| && SameHome(g, s.disk, c)
    ensures SameHome(g, BWrite(s, b, data).disk, c)
  {}

  /** commit copies one logged buffer to the log. */
  lemma LogBlockInv(g: Geometry, s: State)
    requires Inv(g, s) && s.phase.LogStep? && s.phase.i < |s.lh|
    ensures Inv(g, WriteStep(g, s))
  {
    hide Install, Durable, SameHome, DistinctInts, View, Seen, Coherent, IndexOf;
    var t, b := WriteStep(g, s), g.start + 1 + s.phase.i;
    PinnedThere(s);
    LogAreaWrite(g, s, b, s.cache[s.lh[s.phase.i]]);
    LogAreaHome(g, s, b, s.cache[s.lh[s.phase.i]], s.committed);
    SamePins(BWrite(s, b, s.cache[s.lh[s.phase.i]]), t);
  }

  lemma PinnedThere(s: State)
    requires Coherent(s)
    ensures forall j {:trigger s.lh[j]} :: Unpinned(s) <= j < |s.lh| ==> s.lh[j] in s.cache
  {
    hide Pins;
  }

  /** Coherence looks at the phase only for what is pinned. */
  lemma SamePins(s: State, t: State)
    requires Coherent(s) && t.cache == s.cache && t.disk == s.disk && t.lh == s.lh && Unpinned(s) == Unpinned(t)
    ensures Coherent(t)
  {
    hide IndexOf;
  }

  /** With every logged buffer in the log, the header makes durable what readers see. */
  lemma CommitPointAt(g: Geometry, s: State, h: Block, b: nat)
    requires DiskOk(g, s.disk) && Coherent(s) && s.phase.LogStep? && Logged(g, s, 0, |s.lh|)
    requires |s.lh| <= g.size - 1 && |s.lh| <= LOGSIZE && HomeBlocks(g, s.disk, s.lh)
    requires HeaderOk(h) && Header(h) == s.lh && b < |s.disk| && !InLog(g, b)
    ensures DiskOk(g, s.disk[g.start := h]) && Durable(g, s.disk[g.start := h])[b] == Seen(s, b)
  {
    hide Install, Durable, DiskOk;
    HeaderCommits(g, s.disk, s.lh, h, b);
    var j := Last(s.lh, |s.lh|, b);
    assert s.lh[..|s.lh|] == s.lh;
    if j >= 0 { assert s.lh[j] == b; }
  }

  /** What the header write makes durable is what readers see before and after it. */
  lemma CommitPointHome(g: Geometry, s: State)
    requires Inv(g, s) && s.phase.LogStep? && s.phase.i >= |s.lh|
    ensures var t := WriteStep(g, s);
      && DiskOk(g, t.disk) && SameHome(g, Durable(g, t.disk), View(s)) && SameHome(g, View(t), View(s))
  {
    hide Install, Durable, DistinctInts, IndexOf, DiskOk, Coherent, HomeBlocks;
    var t := WriteStep(g, s);
    CommitDiskOk(g, s);
    LogAreaWrite(g, s, g.start, t.disk[g.start]);
    forall b: nat | b < |s.disk| && !InLog(g, b)
      ensures Durable(g, t.disk)[b] == Seen(s, b) && Seen(t, b) == Seen(s, b)
    {
      CommitPointAt(g, s, t.disk[g.start], b);
    }
  }

  /** commit writes the header: what is durable jumps from the old state to the current one. */
  lemma CommitPointInv(g: Geometry, s: State)
    requires Inv(g, s) && s.phase.LogStep? && s.phase.i >= |s.lh|
    ensures Inv(g, WriteStep(g, s))
  {
    hide Install, Durable, SameHome, DistinctInts, View, Seen, Coherent, IndexOf;
    var t := WriteStep(g, s);
    CommitPointHome(g, s);
    PinnedThere(s);
    LogAreaWrite(g, s, g.start, t.disk[g.start]);
    SamePins(BWrite(s, g.start, t.disk[g.start]), t);
    InstallNone(g, t.disk, t.lh);
  }

  lemma CommitDiskOk(g: Geometry, s: State)
    requires Inv(g, s) && s.phase.LogStep? && s.phase.i >= |s.lh|
    ensures DiskOk(g, WriteStep(g, s).disk)
  {}

  lemma InstallNone(g: Geometry, d: Disk, bs: seq<int>)
    requires |bs| <= g.size - 1 && g.start + g.size <= |d| && HomeBlocks(g, d, bs)
    ensures Install(g, d, bs, 0) == d
  {}

  /** A copy from the log to a home block changes nothing that is durable. */
  lemma CopyDurable(g: Geometry, d: Disk, i: nat)
    requires DiskOk(g, d) && i < |Header(d[g.start])| && Install(g, d, Header(d[g.start]), i) == d
    ensures var bs := Header(d[g.start]); var e := d[bs[i] := d[g.start + 1 + i]];
      && DiskOk(g, e) && Header(e[g.start]) == bs
      && Durable(g, e) == Durable(g, d) && Install(g, e, bs, i + 1) == e
  {
    InstallNext(g, d, Header(d[g.start]), i);
  }

  /** The next block to install is pinned, and its buffer is what the log holds. */
  lemma InstallBuffer(g: Geometry, s: State)
    requires Inv(g, s) && s.phase.InstallStep? && s.phase.i < |s.lh|
    ensures var b, l := s.lh[s.phase.i], g.start + 1 + s.phase.i;
      && 0 <= b < |s.disk| && !InLog(g, b) && b in s.cache && l < |s.disk| && InLog(g, l)
      && Seen(s, l) == s.disk[l] == s.cache[b]
  {
    hide Install, Durable, SameHome, DistinctInts, View, IndexOf, Header, HeaderOk;
    assert s.lh[s.phase.i] in s.cache;
    assert g.start + 1 + s.phase.i !in s.lh;
  }

  lemma InstallBlockView(g: Geometry, s: State)
    requires Inv(g, s) && s.phase.InstallStep? && s.phase.i < |s.lh|
    ensures var t := WriteStep(g, s);
      && t.disk == s.disk[s.lh[s.phase.i] := s.disk[g.start + 1 + s.phase.i]]
      && t.cache == s.cache && View(t) == View(s)
  {
    hide Inv, Install, Durable, SameHome;
    InstallBuffer(g, s);
    var t := WriteStep(g, s);
    forall b: nat | b < |s.disk| ensures Seen(t, b) == Seen(s, b) {}
  }

  /** install_trans unpins the block it has installed and no other. */
  lemma PinsNext(s: State, b: int)
    requires s.phase.InstallStep? && s.phase.i < |s.lh| && b != s.lh[s.phase.i]
    ensures Pins(s, b) <==> Pins(s.(phase := InstallStep(s.phase.i + 1)), b)
  {
    hide IndexOf;
  }

  lemma InstallCoherent(g: Geometry, s: State)
    requires Inv(g, s) && s.phase.InstallStep? && s.phase.i < |s.lh|
    ensures Coherent(WriteStep(g, s))
  {
    hide Install, Durable, SameHome, View, Seen, Pins, Header, HeaderOk, DistinctInts;
    InstallBuffer(g, s);
    InstallBlockView(g, s);
    var t := WriteStep(g, s);
    forall b | b in t.cache ensures t.cache[b] == t.disk[b] || Pins(t, b) {
      if b != s.lh[s.phase.i] { PinsNext(s, b); PinsSame(t, s.(phase := t.phase), b); }
    }
  }

  lemma PinsSame(s: State, t: State, b: int)
    requires t.lh == s.lh && t.phase == s.phase
    ensures Pins(s, b) <==> Pins(t, b)
  {
    hide IndexOf;
  }

  /** commit copies one log block home. */
  lemma InstallBlockInv(g: Geometry, s: State)
    requires Inv(g, s) && s.phase.InstallStep? && s.phase.i < |s.lh|
    ensures Inv(g, WriteStep(g, s))
  {
    hide Install, Durable, SameHome, DistinctInts, View, Seen, Coherent;
    InstallBlockView(g, s);
    InstallCoherent(g, s);
    CopyDurable(g, s.disk, s.phase.i);
    InstallLogged(g, s);
  }

  lemma InstallLogged(g: Geometry, s: State)
    requires Inv(g, s) && s.phase.InstallStep? && s.phase.i < |s.lh|
    ensures var t := WriteStep(g, s); Logged(g, t, t.phase.i, |t.lh|)
  {
    hide Install, Durable, SameHome, DistinctInts, View, Seen, Coherent;
    InstallBlockView(g, s);
  }

  /** With no buffer pinned, every buffer holds what is on disk; it still does once the header is
      written again, as an empty one. */
  lemma EraseCoherent(g: Geometry, s: State, h: Block)
    requires Coherent(s) && Unpinned(s) >= |s.lh| && g.start < |s.disk|
    ensures Coherent(BWrite(s, g.start, h).(phase := Running, lh := []))
  {
    hide IndexOf;
  }

  lemma EraseBudget(g: Geometry, s: State)
    requires g.size >= 1 && Budget(g, s) && !s.phase.Running?
    ensures Unused(s.slots) <= LOGSIZE && Capped(s.slots)
  {
    hide DistinctInts, HomeBlocks;
  }

  /** commit and recovery erase the log once every copy is made. */
  lemma EraseInv(g: Geometry, s: State)
    requires Inv(g, s) && (s.phase.InstallStep? || s.phase.RecoverStep?) && s.phase.i >= |s.lh|
    ensures Inv(g, WriteStep(g, s))
  {
    hide Coherent, Seen, View, Install, SameHome, Unused, Outstanding, IndexOf, Capped;
    var t := WriteStep(g, s);
    EraseCoherent(g, s, t.disk[g.start]);
    EraseBudget(g, s);
    LogAreaHome(g, s, g.start, t.disk[g.start], s.committed);
  }

  /** recovery copies one log block home. */
  lemma RecoverBlockInv(g: Geometry, s: State)
    requires Inv(g, s) && s.phase.RecoverStep? && s.phase.i < |s.lh|
    ensures Inv(g, WriteStep(g, s))
  {
    hide Install, Durable, SameHome, DistinctInts, View;
    CopyDurable(g, s.disk, s.phase.i);
  }

  lemma NextInv(g: Geometry, s: State, a: Action)
    requires Inv(g, s) && Enabled(g, s, a)
    ensures Inv(g, Next(g, s, a))
  {
    hide Inv;
    match a
    case Begin(p) => BeginInv(g, s, p);
    case Update(p, b, data) => UpdateInv(g, s, p, b, data);
    case End(p) => EndInv(g, s, p);
    case Fetch(b) => CacheInv(g, s, a);
    case Recycle(b) => CacheInv(g, s, a);
    case Crash => CrashInv(g, s);
    case Write => WriteInv(g, s);
  }

  lemma WriteInv(g: Geometry, s: State)
    requires Inv(g, s) && !s.phase.Running?
    ensures Inv(g, WriteStep(g, s))
  {
    hide Inv;
    match s.phase
    case LogStep(i) => if i < |s.lh| { LogBlockInv(g, s); } else { CommitPointInv(g, s); }
    case InstallStep(i) => if i < |s.lh| { InstallBlockInv(g, s); } else { EraseInv(g, s); }
    case RecoverStep(i) => if i < |s.lh| { RecoverBlockInv(g, s); } else { EraseInv(g, s); }
  }

  // ---- runs ----

  /** A machine booted on a disk whose log is empty, with `n` processes. */
  function Initial(d: Disk, n: nat): State {
    State(d, map[], [], seq(n, _ => Idle), Running, d)
  }

  lemma InitialInv(g: Geometry, d: Disk, n: nat)
    requires DiskOk(g, d) && Header(d[g.start]) == []
    ensures Inv(g, Initial(d, n))
  {
    AllIdle(Initial(d, n).slots);
  }

  ghost predicate CanRun(g: Geometry, s: State, acts: seq<Action>)
    requires Inv(g, s)
    decreases |acts|
  {
    acts == [] || (Enabled(g, s, acts[0]) && (NextInv(g, s, acts[0]); CanRun(g, Next(g, s, acts[0]), acts[1..])))
  }

  function Run(g: Geometry, s: State, acts: seq<Action>): (t: State)
    requires Inv(g, s) && CanRun(g, s, acts)
    ensures Inv(g, t)
    decreases |acts|
  {
    if acts == [] then s else
    NextInv(g, s, acts[0]);
    Run(g, Next(g, s, acts[0]), acts[1..])
  }

  /** At every instant, a crash would bring back exactly the last committed file system. */
  lemma DurableIsCommitted(g: Geometry, s: State)
    requires Inv(g, s)
    ensures DiskOk(g, s.disk) && SameHome(g, Durable(g, s.disk), s.committed)
  {
    if s.phase.Running? || s.phase.LogStep? { EmptyLog(g, s.disk); }
  }

  /** The committed file system changes only when a commit writes its header. It is then the
      view of a moment with no operation in progress, so it never holds part of one. */
  lemma CommitsAreAtomic(g: Geometry, s: State, a: Action)
    requires Inv(g, s) && Enabled(g, s, a) && Next(g, s, a).committed != s.committed
    ensures a.Write? && s.phase.LogStep? && s.phase.i == |s.lh| && s.lh != []
    ensures Outstanding(s.slots) == 0 && Next(g, s, a).committed == View(s)
  {
    hide Install, SameHome;
  }

  /** Nothing but the machine coming back up. */
  predicate Rebooting(a: Action) { a.Crash? || a.Write? || a.Fetch? || a.Recycle? }

  /** In or after recovery, before any operation has begun. */
  ghost predicate Recovering(s: State) { s.phase.RecoverStep? || (s.phase.Running? && s.lh == []) }

  lemma RecoveringStep(g: Geometry, s: State, a: Action)
    requires Inv(g, s) && Enabled(g, s, a) && Rebooting(a) && Recovering(s)
    ensures Recovering(Next(g, s, a)) && Next(g, s, a).committed == s.committed
  {
    hide Install, SameHome;
  }

  lemma {:induction false} RecoveringRun(g: Geometry, s: State, acts: seq<Action>)
    requires Inv(g, s) && CanRun(g, s, acts) && Recovering(s)
    requires forall i :: 0 <= i < |acts| ==> Rebooting(acts[i])
    ensures Recovering(Run(g, s, acts)) && Run(g, s, acts).committed == s.committed
    decreases |acts|
  {
    hide Inv;
    if acts != [] {
      NextInv(g, s, acts[0]);
      RecoveringStep(g, s, acts[0]);
      RecoveringRun(g, Next(g, s, acts[0]), acts[1..]);
    }
  }

  /** With an empty log in memory, readers see what is committed. */
  lemma QuietView(g: Geometry, s: State)
    requires Inv(g, s) && s.phase.Running? && s.lh == []
    ensures SameHome(g, View(s), s.committed)
  {}

  lemma CrashIs(g: Geometry, s: State)
    requires Inv(g, s)
    ensures Enabled(g, s, Crash) && Recovering(Next(g, s, Crash)) && Next(g, s, Crash).committed == s.committed
  {
    hide Inv;
  }

  /** Crash at any instant, let recovery itself crash and restart any number of times: when
      the machine is up again it shows the file system as of the last commit, whole. */
  lemma CrashRecovers(g: Geometry, s: State, acts: seq<Action>)
    requires Inv(g, s) && CanRun(g, s, [Crash] + acts)
    requires forall i :: 0 <= i < |acts| ==> Rebooting(acts[i])
    ensures var t := Run(g, s, [Crash] + acts);
      SameHome(g, Durable(g, t.disk), s.committed) && (t.phase.Running? ==> SameHome(g, View(t), s.committed))
  {
    hide Inv, View, SameHome, Install, Durable, Next, Enabled;
    var all := [Crash] + acts;
    assert all[0] == Crash && all[1..] == acts;
    CrashIs(g, s);
    NextInv(g, s, Crash);
    var c := Next(g, s, Crash);
    RecoveringRun(g, c, acts);
    var t := Run(g, c, acts);
    DurableIsCommitted(g, t);
    if t.phase.Running? { QuietView(g, t); }
  }

  /** The writes of a commit into the log area show readers nothing. */
  lemma LogWriteView(g: Geometry, s: State)
    requires Inv(g, s) && (s.phase.LogStep? || (s.phase.InstallStep? && s.phase.i >= |s.lh|))
    ensures SameHome(g, View(WriteStep(g, s)), View(s))
  {
    hide Install, Durable, DistinctInts, IndexOf, Coherent, HomeBlocks, HeaderOk;
    PinnedThere(s);
    var t := WriteStep(g, s);
    if s.phase.LogStep? && s.phase.i < |s.lh| {
      LogAreaWrite(g, s, g.start + 1 + s.phase.i, s.cache[s.lh[s.phase.i]]);
    } else {
      LogAreaWrite(g, s, g.start, t.disk[g.start]);
    }
    forall b: nat | b < |s.disk| && !InLog(g, b) ensures Seen(t, b) == Seen(s, b) {}
  }

  /** No write of a commit, and no reading or recycling of buffers, changes what readers see. */
  lemma CommitKeepsView(g: Geometry, s: State, a: Action)
    requires Inv(g, s) && Enabled(g, s, a) && !a.Update? && !a.Crash? && !s.phase.RecoverStep?
    ensures SameHome(g, View(Next(g, s, a)), View(s))
  {
    hide Inv, Seen, WriteStep, Pins;
    if a.Fetch? || a.Recycle? {
      CacheView(g, s, a);
    } else if a.Write? && s.phase.InstallStep? && s.phase.i < |s.lh| {
      InstallBlockView(g, s);
    } else if a.Write? {
      LogWriteView(g, s);
    } else {
      SameView(s, Next(g, s, a));
    }
  }

  lemma SameView(s: State, t: State)
    requires t.disk == s.disk && t.cache == s.cache
    ensures View(t) == View(s)
  {}

  /** A commit starts only when no operation is in progress, and none can begin or log until
      it is over: the logged set cannot change under it. */
  lemma LoggedSetFrozen(g: Geometry, s: State, a: Action)
    requires Inv(g, s) && Enabled(g, s, a) && (s.phase.LogStep? || s.phase.InstallStep?) && !a.Crash?
    ensures !a.Begin? && !a.Update? && !a.End?
    ensures Next(g, s, a).lh == s.lh || (Next(g, s, a).phase.Running? && Next(g, s, a).lh == [])
    ensures Outstanding(Next(g, s, a).slots) == 0
    ensures var t := Next(g, s, a);
      forall i :: 0 <= i < |t.lh| ==> t.lh[i] in t.cache || (t.phase.InstallStep? && i < t.phase.i)
  {
    hide Install, SameHome;
    NextInv(g, s, a);
  }

  lemma LogWriteKeeps(g: Geometry, s: State, b: int)
    requires Inv(g, s) && s.phase.LogStep? && b in s.lh
    ensures b in s.cache && 0 <= b < |s.disk|
    ensures var t := WriteStep(g, s); b in t.cache && t.disk[b] == s.disk[b] && t.cache[b] == s.cache[b]
  {
    hide Install, Durable, SameHome, DistinctInts, View, Seen, Coherent, HeaderOk;
    var j :| 0 <= j < |s.lh| && s.lh[j] == b;
    PinnedThere(s);
  }

  lemma LoggedPinned(g: Geometry, s: State, b: int)
    requires Inv(g, s) && (s.phase.Running? || s.phase.LogStep?) && b in s.lh
    ensures b in s.cache && 0 <= b < |s.disk| && Pins(s, b)
  {
    hide Install, Durable, SameHome, View, Seen, Coherent, HeaderOk, IndexOf, PhaseOk;
    var j :| 0 <= j < |s.lh| && s.lh[j] == b;
    PinnedThere(s);
  }

  /** A block logged and not yet committed is neither recycled nor written to its home. */
  lemma LoggedStaysInCache(g: Geometry, s: State, a: Action, b: int)
    requires Inv(g, s) && Enabled(g, s, a) && !a.Crash? && (s.phase.Running? || s.phase.LogStep?) && b in s.lh
    ensures b in s.cache && 0 <= b < |s.disk| && |Next(g, s, a).disk| == |s.disk|
    ensures var t := Next(g, s, a); b in t.cache && t.disk[b] == s.disk[b] && (t.cache[b] == s.cache[b] || a.Update?)
  {
    hide Inv, Pins, WriteStep, View, Outstanding;
    LoggedPinned(g, s, b);
    if a.Write? { LogWriteKeeps(g, s, b); WriteSize(g, s); }
  }

  lemma WriteSize(g: Geometry, s: State)
    requires Inv(g, s) && !s.phase.Running?
    ensures |WriteStep(g, s).disk| == |s.disk|
  {
    hide Install, Durable, SameHome, View, Coherent, HeaderOk;
  }

  /** An operation within its budget always finds a free entry in the header. So log_write's
      test stops it exactly when the log area is one block short. */
  lemma FreshAppendFits(g: Geometry, s: State, p: nat)
    requires Inv(g, s) && p < |s.slots| && s.slots[p].Active? && s.slots[p].left > 0
    ensures |s.lh| < LOGSIZE
    ensures Full(g, s) <==> |s.lh| == g.size - 1
    ensures g.size > LOGSIZE ==> !Full(g, s)
  {
    hide Install, SameHome;
    UnusedAtLeast(s.slots, p);
  }

  lemma {:induction false} UnusedAtLeast(slots: seq<Slot>, p: nat)
    requires p < |slots|
    ensures Unused(slots) >= Weight(slots[p])
  {
    if p > 0 { UnusedAtLeast(slots[1..], p - 1); }
  }
}
