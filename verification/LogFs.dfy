/** The log as a file system that is written in memory and saved whole: over every run, what readers
    see is what programs have written, and what a crash would leave is what was saved last. */
module LogFs {
  import opened LogModel
  import opened LogRuns

  /** What programs have written, and what a crash would leave of it. */
  datatype Fs = Fs(now: Disk, safe: Disk)

  /** The header write of a commit. */
  predicate Commits(s: State, a: Action) { a.Write? && s.phase.LogStep? && s.phase.i >= |s.lh| }

  /** A file system with no log, no cache and no blocks on their way. */
  function FsNext(f: Fs, a: Action, commits: bool): Fs {
    if commits then f.(safe := f.now) else
    match a
    case Update(_, b, data) => if 0 <= b < |f.now| then f.(now := f.now[b := data]) else f
    case Crash => f.(now := f.safe)
    case _ => f
  }

  ghost predicate Shows(g: Geometry, s: State, f: Fs) {
    && SameHome(g, s.committed, f.safe)
    && SameHome(g, if s.phase.RecoverStep? then s.committed else View(s), f.now)
  }

  lemma UpdateShows(g: Geometry, s: State, f: Fs, a: Action)
    requires Inv(g, s) && Enabled(g, s, a) && a.Update? && Shows(g, s, f)
    ensures Shows(g, Next(g, s, a), FsNext(f, a, false))
  {
    hide Inv, View;
    UpdateView(g, s, a.p, a.b, a.data);
  }

  /** A write changes what a crash would leave only if it is the header of a commit. */
  lemma WriteCommitted(g: Geometry, s: State)
    requires Inv(g, s) && !s.phase.Running?
    ensures var t := WriteStep(g, s);
      t.committed == (if Commits(s, Write) then View(s) else s.committed) &&
      (t.phase.RecoverStep? ==> s.phase.RecoverStep?) && (s.phase.RecoverStep? && !t.phase.RecoverStep? ==>
        t.phase.Running? && t.lh == [])
  {
    hide Install, SameHome, View, Durable, HeaderOk;
  }

  lemma WriteShows(g: Geometry, s: State, f: Fs)
    requires Inv(g, s) && !s.phase.Running? && Shows(g, s, f)
    ensures Shows(g, WriteStep(g, s), FsNext(f, Write, Commits(s, Write)))
  {
    hide Inv, View, SameHome, WriteStep;
    WriteCommitted(g, s);
    var t := WriteStep(g, s);
    WriteInv(g, s);
    if s.phase.RecoverStep? {
      if t.phase.Running? {
        QuietView(g, t);
        SameHomeTrans(g, View(t), s.committed, f.now);
      }
    } else {
      CommitKeepsView(g, s, Write);
      SameHomeTrans(g, View(t), View(s), f.now);
    }
  }

  /** The log does what the simple file system does, step by step. */
  lemma StepShows(g: Geometry, s: State, f: Fs, a: Action)
    requires Inv(g, s) && Enabled(g, s, a) && Shows(g, s, f)
    ensures Shows(g, Next(g, s, a), FsNext(f, a, Commits(s, a)))
  {
    hide Inv, View, SameHome, WriteStep, Outstanding, Pins;
    if a.Update? {
      UpdateShows(g, s, f, a);
    } else if a.Write? {
      WriteShows(g, s, f);
    } else if !a.Crash? {
      SameHomeRefl(g, View(s));
      if s.phase.RecoverStep? {
      } else {
        CommitKeepsView(g, s, a);
        SameHomeTrans(g, View(Next(g, s, a)), View(s), f.now);
      }
    }
  }

  /** The simple file system along a run of the log. */
  ghost function FsRun(g: Geometry, s: State, f: Fs, acts: seq<Action>): Fs
    requires Inv(g, s) && CanRun(g, s, acts)
    decreases |acts|
  {
    if acts == [] then f else
    NextInv(g, s, acts[0]);
    FsRun(g, Next(g, s, acts[0]), FsNext(f, acts[0], Commits(s, acts[0])), acts[1..])
  }

  lemma {:induction false} RunShows(g: Geometry, s: State, f: Fs, acts: seq<Action>)
    requires Inv(g, s) && CanRun(g, s, acts) && Shows(g, s, f)
    ensures Shows(g, Run(g, s, acts), FsRun(g, s, f, acts))
    decreases |acts|
  {
    hide Inv, Shows, FsNext, Commits;
    if acts != [] {
      NextInv(g, s, acts[0]);
      StepShows(g, s, f, acts[0]);
      RunShows(g, Next(g, s, acts[0]), FsNext(f, acts[0], Commits(s, acts[0])), acts[1..]);
    }
  }

  /** Every run from boot, with any interleaving of operations, evictions, commits, crashes and
      recoveries, is a run of the simple file system: readers see its blocks whenever the machine is
      up, and the disk always recovers to what it last saved. */
  lemma RunIsFs(g: Geometry, d: Disk, n: nat, acts: seq<Action>)
    requires DiskOk(g, d) && Header(d[g.start]) == [] && Inv(g, Initial(d, n)) && CanRun(g, Initial(d, n), acts)
    ensures var t, f := Run(g, Initial(d, n), acts), FsRun(g, Initial(d, n), Fs(d, d), acts);
      && DiskOk(g, t.disk) && SameHome(g, Durable(g, t.disk), f.safe)
      && (!t.phase.RecoverStep? ==> SameHome(g, View(t), f.now))
  {
    hide Inv, CanRun, Run, FsRun, Durable, DiskOk, SameHome, View;
    var s := Initial(d, n);
    BootView(d, n);
    SameHomeRefl(g, d);
    RunShows(g, s, Fs(d, d), acts);
    var t, f := Run(g, s, acts), FsRun(g, s, Fs(d, d), acts);
    DurableIsCommitted(g, t);
    SameHomeTrans(g, Durable(g, t.disk), t.committed, f.safe);
  }

  lemma BootView(d: Disk, n: nat)
    ensures View(Initial(d, n)) == d
  {}

  // ---- what one commit saves ----

  predicate Updates(a: Action, b: int) { a.Update? && a.b == b }

  /** The place of the last log_write of block `b`, or -1. */
  function LastUpdate(acts: seq<Action>, b: int): (r: int)
    ensures -1 <= r < |acts| && (r >= 0 ==> Updates(acts[r], b))
    ensures forall k :: r < k < |acts| ==> !Updates(acts[k], b)
  {
    if acts == [] then -1 else
    if Updates(acts[|acts| - 1], b) then |acts| - 1 else LastUpdate(acts[..|acts| - 1], b)
  }

  /** What block `b` holds after `acts` if it held `was` before. */
  function Latest(acts: seq<Action>, b: int, was: Block): Block {
    var k := LastUpdate(acts, b);
    if k >= 0 then acts[k].data else was
  }

  lemma LatestFirst(acts: seq<Action>, b: int, was: Block)
    requires acts != []
    ensures Latest(acts, b, was) == Latest(acts[1..], b, if Updates(acts[0], b) then acts[0].data else was)
  {
    hide LastUpdate;
    var k, m := LastUpdate(acts, b), LastUpdate(acts[1..], b);
    assert m >= 0 ==> acts[m + 1] == acts[1..][m];
    assert k > 0 ==> acts[1..][k - 1] == acts[k];
  }

  /** Neither a crash nor the header write of a commit happens in the run. */
  ghost predicate Between(g: Geometry, s: State, acts: seq<Action>)
    requires Inv(g, s) && CanRun(g, s, acts)
    decreases |acts|
  {
    acts == [] ||
    (!acts[0].Crash? && !Commits(s, acts[0]) &&
      (NextInv(g, s, acts[0]); Between(g, Next(g, s, acts[0]), acts[1..])))
  }

  lemma {:induction false} BetweenLatest(g: Geometry, s: State, f: Fs, acts: seq<Action>, b: nat)
    requires Inv(g, s) && CanRun(g, s, acts) && Between(g, s, acts) && b < |f.now|
    ensures var t := FsRun(g, s, f, acts);
      t.safe == f.safe && |t.now| == |f.now| && t.now[b] == Latest(acts, b, f.now[b])
    decreases |acts|
  {
    hide Inv, Next, Enabled, Latest, Commits;
    if acts != [] {
      NextInv(g, s, acts[0]);
      LatestFirst(acts, b, f.now[b]);
      BetweenLatest(g, Next(g, s, acts[0]), FsNext(f, acts[0], false), acts[1..], b);
    } else {
      NoLatest(b, f.now[b]);
    }
  }

  lemma NoLatest(b: int, was: Block)
    ensures Latest([], b, was) == was
  {}

  /** What a commit makes durable, block by block: the data of the last log_write of the block since
      the commit before it, or since boot, and where there was none what that commit had left. */
  lemma CommitSavesLatest(g: Geometry, s: State, acts: seq<Action>, b: nat)
    requires Inv(g, s) && !s.phase.RecoverStep? && SameHome(g, View(s), s.committed)
    requires CanRun(g, s, acts) && Between(g, s, acts) && Commits(Run(g, s, acts), Write)
    requires b < |s.disk| && !InLog(g, b)
    ensures var t := WriteStep(g, Run(g, s, acts));
      && DiskOk(g, t.disk) && |t.disk| == |s.disk| && b < |s.committed|
      && Durable(g, t.disk)[b] == Latest(acts, b, s.committed[b])
      && !t.phase.RecoverStep? && SameHome(g, View(t), t.committed)
  {
    hide Inv, CanRun, Between, Run, FsRun, Durable, DiskOk, View, Latest;
    var f := Fs(s.committed, s.committed);
    RunShows(g, s, f, acts);
    BetweenLatest(g, s, f, acts, b);
    var u := Run(g, s, acts);
    var t := WriteStep(g, u);
    WriteShows(g, u, FsRun(g, s, f, acts));
    WriteInv(g, u);
    DurableIsCommitted(g, t);
    CommittedView(g, u);
  }

  lemma CommittedView(g: Geometry, s: State)
    requires Inv(g, s) && Commits(s, Write)
    ensures var t := WriteStep(g, s); t.phase.InstallStep? && SameHome(g, View(t), t.committed)
  {
    hide Inv, View;
    CommitPointHome(g, s);
  }
}
