/** Sleep locks (kernel/sleeplock.c) over sleep and wakeup (kernel/proc.c), one instruction
    at a time: every interleaving of any number of processes on one lock. */
module SleepLock {

  /** Where a process is in acquiresleep, sleep, releasesleep or wakeup. */
  datatype Pc =
    | Out              // not using the lock
    | Enter            // acquiresleep: acquire(&lk->lk) is next
    | Test             // holds lk->lk: about to test lk->locked
    | Took             // has set lk->locked: about to release(&lk->lk)
    | Inside           // holds the sleep lock
    | Lock             // sleep: acquire(&p->lock) is next
    | Drop             // sleep: holds p->lock, about to release(lk)
    | Mark             // sleep: about to set chan and state
    | Switch           // sleep: SLEEPING, about to switch to the scheduler
    | Parked           // off the CPU; the scheduler is about to release p->lock
    | Asleep           // off the CPU until dispatched
    | Wake             // dispatched, holds p->lock: about to clear chan
    | Unlock           // about to release p->lock
    | Again            // about to acquire lk->lk once more
    | Leave            // releasesleep: acquire(&lk->lk) is next
    | Clear            // holds lk->lk: about to clear lk->locked
    | Scan(i: nat)     // wakeup: process i is next
    | Rouse(i: nat)    // wakeup: holds i's p->lock
    | Roused(i: nat)   // wakeup: about to release i's p->lock
    | Done             // wakeup is over: about to release(&lk->lk)

  datatype RunState = RUNNING | RUNNABLE | SLEEPING

  datatype Proc = Proc(pc: Pc, state: RunState, onChan: bool)

  /** Who holds a process's p->lock: nobody, a process, or a CPU's scheduler. */
  datatype Owner = Free | By(p: nat) | Scheduler

  datatype State = State(
    procs: seq<Proc>,
    plock: seq<Owner>,   // p->lock of each process
    lk: Owner,           // the spin lock inside the sleep lock
    locked: bool,
    pid: nat             // 0, or one more than the holder's index
  )

  /** Holds the inner spin lock. */
  predicate HasLk(pc: Pc) {
    pc.Test? || pc.Took? || pc.Lock? || pc.Drop? || pc.Clear? || pc.Scan? || pc.Rouse? || pc.Roused? || pc.Done?
  }

  /** Holds its own p->lock. */
  predicate HasOwn(pc: Pc) { pc.Drop? || pc.Mark? || pc.Switch? || pc.Wake? || pc.Unlock? }

  /** Holds the sleep lock, from the assignment that takes it to the one that gives it up. */
  predicate Holds(pc: Pc) { pc.Took? || pc.Inside? || pc.Leave? || pc.Clear? }

  /** Asleep on the lock, or past the point where it decided to sleep. */
  predicate Committed(x: Proc) {
    x.pc.Mark? || x.pc.Switch? || x.pc.Parked? || (x.pc.Asleep? && x.state == SLEEPING)
  }

  /** wakeup has yet to look at process `q`. */
  predicate Ahead(pc: Pc, q: nat) {
    match pc
    case Scan(i) => i <= q
    case Rouse(i) => i <= q
    case Roused(i) => i < q
    case _ => false
  }

  /** The spin locks a process holds are those its program counter says. */
  ghost predicate Owns(s: State, p: nat)
    requires p < |s.procs| == |s.plock|
  {
    var pc := s.procs[p].pc;
    && (HasLk(pc) <==> s.lk == By(p))
    && (HasOwn(pc) <==> s.plock[p] == By(p))
    && (pc.Parked? <==> s.plock[p] == Scheduler)
    && (pc.Rouse? || pc.Roused? ==> pc.i < |s.procs| && pc.i != p && s.plock[pc.i] == By(p))
  }

  /** Its state, channel and hold on the sleep lock fit its program counter. */
  ghost predicate Runs(s: State, p: nat)
    requires p < |s.procs| == |s.plock|
  {
    var x := s.procs[p];
    && (Holds(x.pc) ==> s.locked && s.pid == p + 1)
    && (x.pc.Scan? ==> x.pc.i <= |s.procs|)
    && (x.pc.Lock? || x.pc.Drop? ==> s.locked)
    && (x.pc.Switch? || x.pc.Parked? ==> x.state == SLEEPING && x.onChan)
    && (x.pc.Asleep? ==> x.state != RUNNING && x.onChan)
    && (!x.pc.Switch? && !x.pc.Parked? && !x.pc.Asleep? ==> x.state == RUNNING && (x.onChan ==> x.pc.Wake?))
  }

  ghost predicate ProcOk(s: State, p: nat)
    requires p < |s.procs| == |s.plock|
  {
    Owns(s, p) && Runs(s, p)
  }

  ghost predicate LockOwnerOk(s: State, q: nat)
    requires q < |s.procs| == |s.plock|
  {
    s.plock[q].By? && s.plock[q].p != q ==>
      && s.plock[q].p < |s.procs|
      && (s.procs[s.plock[q].p].pc == Rouse(q) || s.procs[s.plock[q].p].pc == Roused(q))
  }

  /** A wakeup that will still look at `q` is under way. */
  ghost predicate Rescued(s: State, q: nat) {
    s.lk.By? && s.lk.p < |s.procs| && Ahead(s.procs[s.lk.p].pc, q)
  }

  /** The inner spin lock belongs to a process, and a taken sleep lock has its one holder. */
  ghost predicate HolderOk(s: State) {
    && (s.lk.By? ==> s.lk.p < |s.procs|) && s.lk != Scheduler
    && (s.locked ==> 0 < s.pid <= |s.procs| && Holds(s.procs[s.pid - 1].pc))
  }

  ghost predicate Inv(s: State) {
    && |s.procs| == |s.plock|
    && HolderOk(s)
    && (forall p {:trigger ProcOk(s, p)} :: 0 <= p < |s.procs| ==> ProcOk(s, p))
    && (forall q {:trigger LockOwnerOk(s, q)} :: 0 <= q < |s.procs| ==> LockOwnerOk(s, q))
    && (!s.locked ==> forall q {:trigger Rescued(s, q)} :: 0 <= q < |s.procs| && Committed(s.procs[q]) ==>
      Rescued(s, q))
  }

  // ---- steps ----

  datatype Action =
    | Start(p: nat)      // call acquiresleep
    | Finish(p: nat)     // the holder calls releasesleep
    | Step(p: nat)       // process p executes its next instruction
    | Park(p: nat)       // the scheduler releases the p->lock it was handed
    | Dispatch(p: nat)   // a scheduler takes p->lock and switches to a RUNNABLE process
    | Kill(p: nat)       // kill makes a sleeping process RUNNABLE

  predicate Enabled(s: State, a: Action)
    requires |s.procs| == |s.plock|
  {
    a.p < |s.procs| &&
    var x := s.procs[a.p];
    match a
    case Start(p) => x.pc.Out?
    case Finish(p) => x.pc.Inside?
    case Park(p) => x.pc.Parked?
    case Dispatch(p) => x.pc.Asleep? && x.state == RUNNABLE && s.plock[p] == Free
    case Kill(p) => x.state == SLEEPING && s.plock[p] == Free
    case Step(p) =>
      match x.pc
      case Enter => s.lk == Free
      case Again => s.lk == Free
      case Leave => s.lk == Free
      case Lock => s.plock[p] == Free
      case Scan(i) => i < |s.procs| && i != p ==> s.plock[i] == Free
      case Out => false
      case Inside => false
      case Parked => false
      case Asleep => false
      case _ => true
  }

  function Goto(s: State, p: nat, pc: Pc): State
    requires p < |s.procs|
  {
    s.(procs := s.procs[p := s.procs[p].(pc := pc)])
  }

  /** In releasesleep or the wakeup it calls. */
  predicate Releasing(pc: Pc) {
    pc.Leave? || pc.Clear? || pc.Scan? || pc.Rouse? || pc.Roused? || pc.Done?
  }

  /** The next instruction of acquiresleep or the sleep it calls. */
  function AcquireStep(s: State, p: nat): State
    requires p < |s.procs| == |s.plock|
  {
    var x := s.procs[p];
    match x.pc
    case Enter => Goto(s, p, Test).(lk := By(p))
    case Test => if s.locked then Goto(s, p, Lock) else Goto(s, p, Took).(locked := true, pid := p + 1)
    case Took => Goto(s, p, Inside).(lk := Free)
    case Lock => Goto(s, p, Drop).(plock := s.plock[p := By(p)])
    case Drop => Goto(s, p, Mark).(lk := Free)
    case Mark => s.(procs := s.procs[p := x.(pc := Switch, state := SLEEPING, onChan := true)])
    case Switch => Goto(s, p, Parked).(plock := s.plock[p := Scheduler])
    case Wake => s.(procs := s.procs[p := x.(pc := Unlock, onChan := false)])
    case Unlock => Goto(s, p, Again).(plock := s.plock[p := Free])
    case Again => Goto(s, p, Test).(lk := By(p))
    case _ => s
  }

  /** The next instruction of releasesleep or the wakeup it calls. */
  function ReleaseStep(s: State, p: nat): State
    requires p < |s.procs| == |s.plock|
  {
    match s.procs[p].pc
    case Leave => Goto(s, p, Clear).(lk := By(p))
    case Clear => Goto(s, p, Scan(0)).(locked := false, pid := 0)
    case Scan(i) =>
      if i >= |s.procs| then Goto(s, p, Done)
      else if i == p then Goto(s, p, Scan(i + 1))
      else Goto(s, p, Rouse(i)).(plock := s.plock[i := By(p)])
    case Rouse(i) => RouseStep(s, p, i)
    case Roused(i) => if i < |s.plock| then Goto(s, p, Scan(i + 1)).(plock := s.plock[i := Free]) else s
    case Done => Goto(s, p, Out).(lk := Free)
    case _ => s
  }

  function Next(s: State, a: Action): State
    requires |s.procs| == |s.plock| && Enabled(s, a)
  {
    var p := a.p;
    var x := s.procs[p];
    match a
    case Start(_) => Goto(s, p, Enter)
    case Finish(_) => Goto(s, p, Leave)
    case Park(_) => Goto(s, p, Asleep).(plock := s.plock[p := Free])
    case Dispatch(_) => s.(procs := s.procs[p := x.(pc := Wake, state := RUNNING)], plock := s.plock[p := By(p)])
    case Kill(_) => s.(procs := s.procs[p := x.(state := RUNNABLE)])
    case Step(_) => if Releasing(x.pc) then ReleaseStep(s, p) else AcquireStep(s, p)
  }

  /** wakeup's body: a process asleep on the channel becomes RUNNABLE. */
  function RouseStep(s: State, p: nat, i: nat): State
    requires p < |s.procs|
  {
    var t := Goto(s, p, Roused(i));
    if i < |s.procs| && i != p && s.procs[i].state == SLEEPING && s.procs[i].onChan
    then t.(procs := t.procs[i := t.procs[i].(state := RUNNABLE)])
    else t
  }

  // ---- every step keeps the invariant ----

  /** Where the process taking step `a` is. */
  predicate InRelease(s: State, a: Action) { a.Step? && a.p < |s.procs| && Releasing(s.procs[a.p].pc) }
  predicate InAcquire(s: State, a: Action) { a.Step? && a.p < |s.procs| && !Releasing(s.procs[a.p].pc) }

  lemma SizeStep(s: State, a: Action)
    requires Inv(s) && Enabled(s, a)
    ensures a.p < |s.procs| == |Next(s, a).procs| == |Next(s, a).plock|
  {}

  // each clause for the process that moves, in the three kinds of step

  lemma SelfOwnsAcquire(s: State, a: Action)
    requires Inv(s) && Enabled(s, a) && InAcquire(s, a)
    ensures var t := Next(s, a); a.p < |t.procs| == |t.plock| && Owns(t, a.p)
  {
    hide ReleaseStep, Rescued, Committed, Runs, HolderOk;
    assert ProcOk(s, a.p) && LockOwnerOk(s, a.p);
  }

  lemma SelfOwnsRelease(s: State, a: Action)
    requires Inv(s) && Enabled(s, a) && InRelease(s, a)
    ensures var t := Next(s, a); a.p < |t.procs| == |t.plock| && Owns(t, a.p)
  {
    hide AcquireStep, Rescued, Committed;
    assert ProcOk(s, a.p) && LockOwnerOk(s, a.p);
  }

  lemma SelfOwnsOther(s: State, a: Action)
    requires Inv(s) && Enabled(s, a) && !a.Step?
    ensures var t := Next(s, a); a.p < |t.procs| == |t.plock| && Owns(t, a.p)
  {
    hide AcquireStep, ReleaseStep, Rescued, Committed;
    assert ProcOk(s, a.p) && LockOwnerOk(s, a.p);
  }

  lemma SelfRunsAcquire(s: State, a: Action)
    requires Inv(s) && Enabled(s, a) && InAcquire(s, a)
    ensures var t := Next(s, a); a.p < |t.procs| == |t.plock| && Runs(t, a.p)
  {
    hide ReleaseStep, Rescued, Committed;
    assert ProcOk(s, a.p);
  }

  lemma SelfRunsRelease(s: State, a: Action)
    requires Inv(s) && Enabled(s, a) && InRelease(s, a)
    ensures var t := Next(s, a); a.p < |t.procs| == |t.plock| && Runs(t, a.p)
  {
    hide AcquireStep, Rescued, Committed;
    assert ProcOk(s, a.p);
  }

  lemma SelfRunsOther(s: State, a: Action)
    requires Inv(s) && Enabled(s, a) && !a.Step?
    ensures var t := Next(s, a); a.p < |t.procs| == |t.plock| && Runs(t, a.p)
  {
    hide AcquireStep, ReleaseStep, Rescued, Committed;
    assert ProcOk(s, a.p);
  }

  lemma OtherOwnsAcquire(s: State, a: Action, q: nat)
    requires Inv(s) && Enabled(s, a) && InAcquire(s, a) && q < |s.procs| && q != a.p
    ensures var t := Next(s, a); q < |t.procs| == |t.plock| && Owns(t, q)
  {
    hide ReleaseStep, Rescued, Committed, Runs, HolderOk;
    assert ProcOk(s, a.p) && LockOwnerOk(s, a.p) && ProcOk(s, q) && LockOwnerOk(s, q);
  }

  lemma OtherOwnsRelease(s: State, a: Action, q: nat)
    requires Inv(s) && Enabled(s, a) && InRelease(s, a) && q < |s.procs| && q != a.p
    ensures var t := Next(s, a); q < |t.procs| == |t.plock| && Owns(t, q)
  {
    hide AcquireStep, Rescued, Committed;
    assert ProcOk(s, a.p) && LockOwnerOk(s, a.p) && ProcOk(s, q) && LockOwnerOk(s, q);
  }

  lemma OtherOwnsOther(s: State, a: Action, q: nat)
    requires Inv(s) && Enabled(s, a) && !a.Step? && q < |s.procs| && q != a.p
    ensures var t := Next(s, a); q < |t.procs| == |t.plock| && Owns(t, q)
  {
    hide AcquireStep, ReleaseStep, Rescued, Committed;
    assert ProcOk(s, a.p) && LockOwnerOk(s, a.p) && ProcOk(s, q) && LockOwnerOk(s, q);
  }

  lemma OtherRunsAcquire(s: State, a: Action, q: nat)
    requires Inv(s) && Enabled(s, a) && InAcquire(s, a) && q < |s.procs| && q != a.p
    ensures var t := Next(s, a); q < |t.procs| == |t.plock| && Runs(t, q)
  {
    hide ReleaseStep, Rescued, Committed;
    assert ProcOk(s, a.p) && ProcOk(s, q);
  }

  lemma OtherRunsRelease(s: State, a: Action, q: nat)
    requires Inv(s) && Enabled(s, a) && InRelease(s, a) && q < |s.procs| && q != a.p
    ensures var t := Next(s, a); q < |t.procs| == |t.plock| && Runs(t, q)
  {
    hide AcquireStep, Rescued, Committed;
    assert ProcOk(s, a.p) && ProcOk(s, q);
  }

  lemma OtherRunsOther(s: State, a: Action, q: nat)
    requires Inv(s) && Enabled(s, a) && !a.Step? && q < |s.procs| && q != a.p
    ensures var t := Next(s, a); q < |t.procs| == |t.plock| && Runs(t, q)
  {
    hide AcquireStep, ReleaseStep, Rescued, Committed;
    assert ProcOk(s, a.p) && ProcOk(s, q);
  }

  lemma OwnerAcquire(s: State, a: Action, q: nat)
    requires Inv(s) && Enabled(s, a) && InAcquire(s, a) && q < |s.procs|
    ensures var t := Next(s, a); q < |t.procs| == |t.plock| && LockOwnerOk(t, q)
  {
    hide ReleaseStep, Rescued, Committed;
    assert ProcOk(s, a.p) && LockOwnerOk(s, a.p) && ProcOk(s, q) && LockOwnerOk(s, q);
  }

  lemma OwnerRelease(s: State, a: Action, q: nat)
    requires Inv(s) && Enabled(s, a) && InRelease(s, a) && q < |s.procs|
    ensures var t := Next(s, a); q < |t.procs| == |t.plock| && LockOwnerOk(t, q)
  {
    hide AcquireStep, Rescued, Committed;
    assert ProcOk(s, a.p) && LockOwnerOk(s, a.p) && ProcOk(s, q) && LockOwnerOk(s, q);
  }

  lemma OwnerOther(s: State, a: Action, q: nat)
    requires Inv(s) && Enabled(s, a) && !a.Step? && q < |s.procs|
    ensures var t := Next(s, a); q < |t.procs| == |t.plock| && LockOwnerOk(t, q)
  {
    hide AcquireStep, ReleaseStep, Rescued, Committed;
    assert ProcOk(s, a.p) && LockOwnerOk(s, a.p) && ProcOk(s, q) && LockOwnerOk(s, q);
  }

  lemma HolderAcquire(s: State, a: Action)
    requires Inv(s) && Enabled(s, a) && InAcquire(s, a)
    ensures var t := Next(s, a); HolderOk(t)
  {
    hide ReleaseStep, Rescued, Committed;
    assert ProcOk(s, a.p) && LockOwnerOk(s, a.p);
  }

  lemma HolderRelease(s: State, a: Action)
    requires Inv(s) && Enabled(s, a) && InRelease(s, a)
    ensures var t := Next(s, a); HolderOk(t)
  {
    hide AcquireStep, Rescued, Committed;
    assert ProcOk(s, a.p) && LockOwnerOk(s, a.p);
  }

  lemma HolderOther(s: State, a: Action)
    requires Inv(s) && Enabled(s, a) && !a.Step?
    ensures var t := Next(s, a); HolderOk(t)
  {
    hide AcquireStep, ReleaseStep, Rescued, Committed;
    assert ProcOk(s, a.p) && LockOwnerOk(s, a.p);
  }

  // a process commits to sleeping only while the lock is held, and no wakeup passes it by

  lemma RescueAcquire(s: State, a: Action, q: nat)
    requires Inv(s) && Enabled(s, a) && InAcquire(s, a) && q < |s.procs|
    requires var t := Next(s, a); |t.procs| == |s.procs| && !t.locked && Committed(t.procs[q])
    ensures Rescued(Next(s, a), q)
  {
    hide ReleaseStep;
    assert ProcOk(s, a.p) && LockOwnerOk(s, a.p) && ProcOk(s, q) && LockOwnerOk(s, q);
    assert !s.locked && Committed(s.procs[q]) ==> Rescued(s, q);
  }

  lemma RescueRelease(s: State, a: Action, q: nat)
    requires Inv(s) && Enabled(s, a) && InRelease(s, a) && q < |s.procs|
    requires var t := Next(s, a); |t.procs| == |s.procs| && !t.locked && Committed(t.procs[q])
    ensures Rescued(Next(s, a), q)
  {
    hide AcquireStep;
    assert ProcOk(s, a.p) && LockOwnerOk(s, a.p) && ProcOk(s, q) && LockOwnerOk(s, q);
    assert !s.locked && Committed(s.procs[q]) ==> Rescued(s, q);
  }

  lemma RescueOther(s: State, a: Action, q: nat)
    requires Inv(s) && Enabled(s, a) && !a.Step? && q < |s.procs|
    requires var t := Next(s, a); |t.procs| == |s.procs| && !t.locked && Committed(t.procs[q])
    ensures Rescued(Next(s, a), q)
  {
    hide AcquireStep, ReleaseStep;
    assert ProcOk(s, a.p) && LockOwnerOk(s, a.p) && ProcOk(s, q) && LockOwnerOk(s, q);
    assert !s.locked && Committed(s.procs[q]) ==> Rescued(s, q);
  }

  lemma ProcStep(s: State, a: Action, q: nat)
    requires Inv(s) && Enabled(s, a) && q < |s.procs|
    ensures var t := Next(s, a); q < |t.procs| == |t.plock| && ProcOk(t, q) && LockOwnerOk(t, q)
  {
    SizeStep(s, a);
    hide Next, Enabled, Owns, Runs, LockOwnerOk, Committed, Rescued, HolderOk;
    if InAcquire(s, a) {
      OwnerAcquire(s, a, q);
      if q == a.p { SelfOwnsAcquire(s, a); SelfRunsAcquire(s, a); }
      else { OtherOwnsAcquire(s, a, q); OtherRunsAcquire(s, a, q); }
    } else if InRelease(s, a) {
      OwnerRelease(s, a, q);
      if q == a.p { SelfOwnsRelease(s, a); SelfRunsRelease(s, a); }
      else { OtherOwnsRelease(s, a, q); OtherRunsRelease(s, a, q); }
    } else {
      OwnerOther(s, a, q);
      if q == a.p { SelfOwnsOther(s, a); SelfRunsOther(s, a); }
      else { OtherOwnsOther(s, a, q); OtherRunsOther(s, a, q); }
    }
  }

  lemma NextInv(s: State, a: Action)
    requires Inv(s) && Enabled(s, a)
    ensures Inv(Next(s, a))
  {
    SizeStep(s, a);
    hide Next, Enabled, Owns, Runs, LockOwnerOk, Rescued, Committed, HolderOk;
    var t := Next(s, a);
    if InAcquire(s, a) { HolderAcquire(s, a); }
    else if InRelease(s, a) { HolderRelease(s, a); }
    else { HolderOther(s, a); }
    forall q: nat | q < |s.procs| ensures ProcOk(t, q) && LockOwnerOk(t, q) {
      ProcStep(s, a, q);
    }
    if !t.locked {
      forall q: nat | q < |t.procs| && Committed(t.procs[q]) ensures Rescued(t, q) {
        if InAcquire(s, a) { RescueAcquire(s, a, q); }
        else if InRelease(s, a) { RescueRelease(s, a, q); }
        else { RescueOther(s, a, q); }
      }
    }
  }

  // ---- every reachable state ----

  function Initial(n: nat): State {
    State(seq(n, _ => Proc(Out, RUNNING, false)), seq(n, _ => Free), Free, false, 0)
  }

  ghost predicate CanRun(s: State, acts: seq<Action>)
    decreases |acts|
  {
    acts == [] || (|s.procs| == |s.plock| && Enabled(s, acts[0]) && CanRun(Next(s, acts[0]), acts[1..]))
  }

  function Run(s: State, acts: seq<Action>): State
    requires CanRun(s, acts)
    decreases |acts|
  {
    if acts == [] then s else Run(Next(s, acts[0]), acts[1..])
  }

  lemma {:induction false} RunInv(s: State, acts: seq<Action>)
    requires Inv(s) && CanRun(s, acts)
    ensures Inv(Run(s, acts))
    decreases |acts|
  {
    hide Inv, Next, Enabled;
    if acts != [] {
      NextInv(s, acts[0]);
      RunInv(Next(s, acts[0]), acts[1..]);
    }
  }

  /** Asleep on the lock or committed to sleeping on it: nobody, in any reachable state where
      the lock is free and its spin lock is too. */
  lemma NoLostWakeup(n: nat, acts: seq<Action>, q: nat)
    requires CanRun(Initial(n), acts) && q < |Run(Initial(n), acts).procs|
    ensures var s := Run(Initial(n), acts); !s.locked && s.lk == Free ==> !Committed(s.procs[q])
  {
    InitialInv(n);
    RunInv(Initial(n), acts);
    hide CanRun, Run;
    var s := Run(Initial(n), acts);
    assert !s.locked && Committed(s.procs[q]) ==> Rescued(s, q);
  }

  lemma InitialInv(n: nat)
    ensures Inv(Initial(n))
  {
    var s := Initial(n);
    forall p | 0 <= p < n ensures ProcOk(s, p) && LockOwnerOk(s, p) {}
  }

  /** At most one process holds the sleep lock, and holdingsleep is true for exactly that one. */
  lemma MutualExclusion(n: nat, acts: seq<Action>, p: nat, q: nat)
    requires CanRun(Initial(n), acts) && p < |Run(Initial(n), acts).procs| && q < |Run(Initial(n), acts).procs|
    ensures var s := Run(Initial(n), acts);
      && (Holds(s.procs[p].pc) && Holds(s.procs[q].pc) ==> p == q)
      && (s.locked && s.pid == p + 1 <==> Holds(s.procs[p].pc))
  {
    InitialInv(n);
    RunInv(Initial(n), acts);
    hide CanRun, Run;
    var s := Run(Initial(n), acts);
    assert ProcOk(s, p) && ProcOk(s, q);
  }

  /** The next thing that can happen when the spin lock is taken. */
  function WhileTaken(s: State): Action {
    var w := if s.lk.By? then s.lk.p else 0;
    if w < |s.procs| == |s.plock| && s.procs[w].pc.Scan? then
      var i := s.procs[w].pc.i;
      if i < |s.procs| && i != w && s.plock[i] == Scheduler then Park(i)
      else if i < |s.procs| && i != w && s.plock[i] != Free then Step(i)
      else Step(w)
    else Step(w)
  }

  /** The next thing that can happen for the sake of process `p` when it is not. */
  function WhileFree(s: State, p: nat): Action
    requires p < |s.procs|
  {
    match s.procs[p].pc
    case Inside => Finish(p)
    case Parked => Park(p)
    case Asleep => if s.procs[p].state == RUNNABLE then Dispatch(p) else Holder(s)
    case _ => Step(p)
  }

  function Holder(s: State): Action {
    var h := if s.pid > 0 then s.pid - 1 else 0;
    if h < |s.procs| && s.procs[h].pc.Inside? then Finish(h) else Step(h)
  }

  /** A p->lock held by another process is held by the wakeup that has the spin lock. */
  lemma LockHolder(s: State, q: nat)
    requires Inv(s) && q < |s.procs|
    ensures ProcOk(s, q)
    ensures s.plock[q].By? && s.plock[q].p != q ==>
      s.lk == s.plock[q] && s.lk.p < |s.procs| && (s.procs[s.lk.p].pc == Rouse(q) || s.procs[s.lk.p].pc == Roused(q))
  {
    assert ProcOk(s, q) && LockOwnerOk(s, q);
    if s.plock[q].By? && s.plock[q].p != q {
      assert ProcOk(s, s.plock[q].p);
    }
  }

  /** While any process is using the lock, some step other than a new call is possible. */
  lemma NeverStuck(s: State, p: nat)
    requires Inv(s) && p < |s.procs| && !s.procs[p].pc.Out?
    ensures Enabled(s, if s.lk == Free then WhileFree(s, p) else WhileTaken(s))
  {
    LockHolder(s, p);
    if s.lk.By? {
      var w := s.lk.p;
      LockHolder(s, w);
      if s.procs[w].pc.Scan? && s.procs[w].pc.i < |s.procs| {
        LockHolder(s, s.procs[w].pc.i);
      }
    } else {
      assert Committed(s.procs[p]) && !s.locked ==> Rescued(s, p);
      if s.locked { assert ProcOk(s, s.pid - 1); }
    }
  }
}
