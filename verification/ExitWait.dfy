/** fork, exit and wait (kernel/proc.c): every interleaving of any number of processes.

    A step is what happens between two points where another CPU could interfere. Work done
    on another process under its p->lock is one step, possible when that lock is free; so a
    p->lock is seen to be held only by its own process or by the scheduler it was handed to. */
module ExitWait {

  const INIT: nat := 0  // initproc

  datatype ExitPc =
    | Enter             // acquire(&wait_lock) is next
    | Reparent(i: nat)  // reparent is at slot i
    | WakeInit(i: nat)  // slot i has been given to init: wakeup(initproc) is next
    | WakeParent        // wakeup(p->parent) is next
    | Die               // to take p->lock and become a ZOMBIE
    | Unwait            // a ZOMBIE: release(&wait_lock) is next
    | Depart            // a ZOMBIE: to switch to the scheduler
    | Gone              // off its stack; the scheduler is about to release p->lock
    | Dead              // a ZOMBIE with its lock free

  datatype WaitPc =
    | Begin                     // acquire(&wait_lock) is next
    | Scan(i: nat, kids: bool)  // the scan is at slot i
    | Decide(kids: bool)        // the scan found no zombie
    | Doze                      // there are children and no kill was seen: sleep's acquire(&p->lock) is next
    | Drop                      // sleep: holds p->lock, release(&wait_lock) is next
    | Mark                      // sleep: to set chan and state
    | Switch                    // SLEEPING: to switch to the scheduler
    | Parked                    // off the CPU; the scheduler is about to release p->lock
    | Asleep                    // off the CPU until dispatched
    | Rise                      // dispatched, holds p->lock

  datatype Pc =
    | None                        // the slot is free
    | Made(maker: nat)            // a fork is filling the slot
    | Ready                       // never run yet
    | User                        // in user space
    | Adopt(c: nat)               // fork: to set the child's parent, under wait_lock
    | Launch(c: nat)              // fork: to make the child RUNNABLE
    | Exiting(e: ExitPc, st: int)
    | InWait(w: WaitPc)

  datatype ProcState = UNUSED | USED | SLEEPING | RUNNABLE | RUNNING | ZOMBIE

  datatype Proc = Proc(pc: Pc, state: ProcState, parent: int, killed: bool, xstate: int, pid: nat)

  const FreeProc := Proc(None, UNUSED, -1, false, 0, 0)

  datatype State = State(
    procs: seq<Proc>,
    wl: int,                   // holder of wait_lock, or -1
    nextpid: nat,
    exits: map<nat, int>,      // bookkeeping: pid and status of every process that has exited
    reaped: map<nat, int>      // bookkeeping: what wait has handed to parents
  )

  predicate ExitHasWl(e: ExitPc) { e.Reparent? || e.WakeInit? || e.WakeParent? || e.Die? || e.Unwait? }
  predicate WaitHasWl(w: WaitPc) { w.Scan? || w.Decide? || w.Doze? || w.Drop? }

  predicate HasWl(pc: Pc) { (pc.Exiting? && ExitHasWl(pc.e)) || (pc.InWait? && WaitHasWl(pc.w)) }

  /** p->lock is held, by the process or by the scheduler it was handed to. */
  predicate LockTaken(pc: Pc) {
    || (pc.Exiting? && (pc.e.Unwait? || pc.e.Depart? || pc.e.Gone?))
    || (pc.InWait? && (pc.w.Drop? || pc.w.Mark? || pc.w.Switch? || pc.w.Parked? || pc.w.Rise?))
  }

  predicate IsZombie(pc: Pc) { pc.Exiting? && (pc.e.Unwait? || pc.e.Depart? || pc.e.Gone? || pc.e.Dead?) }

  /** Asleep in wait, or past the point where it decided to sleep. */
  predicate Waiting(x: Proc) {
    x.pc.InWait? && (x.pc.w.Mark? || x.pc.w.Switch? || x.pc.w.Parked? || (x.pc.w.Asleep? && x.state == SLEEPING))
  }

  /** A process at `pc` may have slot `j` as a child: it is alive, exit has not yet given the
      slot away, and wait has not yet passed the slot without seeing a child. */
  predicate MayHave(pc: Pc, j: nat) {
    match pc
    case None => false
    case Made(_) => false
    case Ready => false
    case Exiting(e, _) => e.Enter? || (e.Reparent? && e.i <= j) || (e.WakeInit? && e.i < j)
    case InWait(w) => !(w.Scan? && !w.kids && j < w.i) && !(w.Decide? && !w.kids)
    case _ => true
  }

  /** wait's scan has passed slot `j`. */
  predicate Passed(pc: Pc, j: nat) {
    pc.InWait? && ((pc.w.Scan? && j < pc.w.i) || pc.w.Decide? || pc.w.Doze? || pc.w.Drop?)
  }

  // ---- steps ----

  datatype Action =
    | Fork(p: nat, c: nat)      // allocproc takes slot c
    | Abandon(p: nat)           // fork fails and gives the slot back
    | Exit(p: nat, st: int)
    | Wait(p: nat)
    | Step(p: nat)
    | Fail(p: nat)              // wait cannot copy the status out and gives up
    | Release(p: nat)           // the scheduler releases the p->lock it was handed
    | Dispatch(p: nat)          // a scheduler switches to a RUNNABLE process
    | Kill(p: nat)

  predicate LockFree(s: State, q: int) { 0 <= q < |s.procs| ==> !LockTaken(s.procs[q].pc) }

  predicate ZombieChild(s: State, p: nat, i: nat) {
    i < |s.procs| && s.procs[i].parent == p && s.procs[i].state == ZOMBIE
  }

  predicate ExitReady(s: State, x: Proc, e: ExitPc) {
    match e
    case Enter => s.wl == -1
    case WakeInit(_) => LockFree(s, INIT)
    case WakeParent => LockFree(s, x.parent)
    case Gone => false
    case Dead => false
    case _ => true
  }

  predicate WaitReady(s: State, p: nat, w: WaitPc) {
    match w
    case Begin => s.wl == -1
    case Scan(i, _) => i < |s.procs| && s.procs[i].parent == p ==> LockFree(s, i)
    case Parked => false
    case Asleep => false
    case _ => true
  }

  predicate Enabled(s: State, a: Action) {
    a.p < |s.procs| &&
    var x := s.procs[a.p];
    match a
    case Fork(p, c) => x.pc.User? && c < |s.procs| && s.procs[c].state == UNUSED
    case Abandon(p) => x.pc.Adopt? && LockFree(s, x.pc.c)
    case Exit(p, _) => x.pc.User? && p != INIT
    case Wait(p) => x.pc.User?
    case Fail(p) => x.pc.InWait? && x.pc.w.Scan? && ZombieChild(s, p, x.pc.w.i) && LockFree(s, x.pc.w.i)
    case Release(p) => x.pc == InWait(Parked) || (x.pc.Exiting? && x.pc.e.Gone?)
    case Dispatch(p) => x.state == RUNNABLE && !LockTaken(x.pc)
    case Kill(p) => x.state != UNUSED && !LockTaken(x.pc)
    case Step(p) =>
      || (x.pc.Adopt? && s.wl == -1)
      || (x.pc.Launch? && LockFree(s, x.pc.c))
      || (x.pc.Exiting? && ExitReady(s, x, x.pc.e))
      || (x.pc.InWait? && WaitReady(s, p, x.pc.w))
  }

  function Put(s: State, p: nat, x: Proc): State
    requires p < |s.procs|
  {
    s.(procs := s.procs[p := x])
  }

  function Goto(s: State, p: nat, pc: Pc): State
    requires p < |s.procs|
  {
    Put(s, p, s.procs[p].(pc := pc))
  }

  /** wakeup(q), where only process q itself ever sleeps on channel q. */
  function Wakeup(s: State, q: int): State {
    if 0 <= q < |s.procs| && s.procs[q].state == SLEEPING then Put(s, q, s.procs[q].(state := RUNNABLE)) else s
  }

  function ExitStep(s: State, p: nat, e: ExitPc, st: int): State
    requires p < |s.procs|
  {
    var x := s.procs[p];
    match e
    case Enter => Goto(s, p, Exiting(Reparent(0), st)).(wl := p)
    case Reparent(i) =>
      if i >= |s.procs| then Goto(s, p, Exiting(WakeParent, st))
      else if s.procs[i].parent == p then Goto(Put(s, i, s.procs[i].(parent := INIT)), p, Exiting(WakeInit(i), st))
      else Goto(s, p, Exiting(Reparent(i + 1), st))
    case WakeInit(i) => Goto(Wakeup(s, INIT), p, Exiting(Reparent(i + 1), st))
    case WakeParent => Goto(Wakeup(s, x.parent), p, Exiting(Die, st))
    case Die => Put(s, p, x.(pc := Exiting(Unwait, st), state := ZOMBIE, xstate := st)).(exits := s.exits[x.pid := st])
    case Unwait => Goto(s, p, Exiting(Depart, st)).(wl := -1)
    case Depart => Goto(s, p, Exiting(Gone, st))
    case _ => s
  }

  /** wait frees zombie child `i` and returns its pid and status. */
  function Reap(s: State, p: nat, i: nat): State
    requires p < |s.procs| && i < |s.procs|
  {
    Goto(Put(s, i, FreeProc), p, User).(wl := -1, reaped := s.reaped[s.procs[i].pid := s.procs[i].xstate])
  }

  function WaitStep(s: State, p: nat, w: WaitPc): State
    requires p < |s.procs|
  {
    var x := s.procs[p];
    match w
    case Begin => Goto(s, p, InWait(Scan(0, false))).(wl := p)
    case Scan(i, kids) =>
      if i >= |s.procs| then Goto(s, p, InWait(Decide(kids)))
      else if ZombieChild(s, p, i) then Reap(s, p, i)
      else Goto(s, p, InWait(Scan(i + 1, kids || s.procs[i].parent == p)))
    case Decide(kids) => if !kids || x.killed then Goto(s, p, User).(wl := -1) else Goto(s, p, InWait(Doze))
    case Doze => Goto(s, p, InWait(Drop))
    case Drop => Goto(s, p, InWait(Mark)).(wl := -1)
    case Mark => Put(s, p, x.(pc := InWait(Switch), state := SLEEPING))
    case Switch => Goto(s, p, InWait(Parked))
    case Rise => Goto(s, p, InWait(Begin))
    case _ => s
  }

  function ForkStep(s: State, p: nat): State
    requires p < |s.procs|
  {
    var pc := s.procs[p].pc;
    if pc.Adopt? && pc.c < |s.procs| then Goto(Put(s, pc.c, s.procs[pc.c].(parent := p)), p, Launch(pc.c))
    else if pc.Launch? && pc.c < |s.procs| then
      Goto(Put(s, pc.c, s.procs[pc.c].(pc := Ready, state := RUNNABLE)), p, User)
    else s
  }

  function CallStep(s: State, a: Action): State
    requires Enabled(s, a)
  {
    var p := a.p;
    var x := s.procs[p];
    match a
    case Fork(_, c) =>
      Goto(Put(s, c, FreeProc.(pc := Made(p), state := USED, pid := s.nextpid)), p, Adopt(c)).(nextpid := s.nextpid + 1)
    case Abandon(_) => if x.pc.c < |s.procs| then Goto(Put(s, x.pc.c, FreeProc), p, User) else s
    case Exit(_, st) => Goto(s, p, Exiting(Enter, st))
    case Wait(_) => Goto(s, p, InWait(Begin))
    case Fail(_) => Goto(s, p, User).(wl := -1)
    case Release(_) => Goto(s, p, if x.pc.Exiting? then x.pc.(e := Dead) else InWait(Asleep))
    case Dispatch(_) => Put(s, p, x.(pc := if x.pc.InWait? then InWait(Rise) else User, state := RUNNING))
    case Kill(_) => Put(s, p, x.(killed := true, state := if x.state == SLEEPING then RUNNABLE else x.state))
    case _ => s
  }

  function Next(s: State, a: Action): State
    requires Enabled(s, a)
  {
    var pc := s.procs[a.p].pc;
    if !a.Step? then CallStep(s, a)
    else if pc.Exiting? then ExitStep(s, a.p, pc.e, pc.st)
    else if pc.InWait? then WaitStep(s, a.p, pc.w)
    else ForkStep(s, a.p)
  }

  // ---- the invariant ----

  /** State and program counter agree, and a fork's slot is its own. */
  ghost predicate Runs(s: State, p: nat)
    requires p < |s.procs|
  {
    var x := s.procs[p];
    && (HasWl(x.pc) <==> s.wl == p)
    && StateOk(x)
    && (x.pc.Adopt? || x.pc.Launch? ==>
          x.pc.c < |s.procs| && s.procs[x.pc.c].pc == Made(p)
            && (s.procs[x.pc.c].parent == -1 || s.procs[x.pc.c].parent == p))
  }

  predicate StateOk(x: Proc) {
    match x.pc
    case None => x.state == UNUSED && x.parent == -1
    case Made(_) => x.state == USED
    case Ready => x.state == RUNNABLE
    case Exiting(_, _) => x.state == if IsZombie(x.pc) then ZOMBIE else RUNNING
    case InWait(w) =>
      if w.Switch? || w.Parked? then x.state == SLEEPING
      else if w.Asleep? then x.state == SLEEPING || x.state == RUNNABLE
      else x.state == RUNNING
    case _ => x.state == RUNNING
  }

  /** A parent pointer leads to a process that can still have that child. */
  ghost predicate ParentOk(s: State, j: nat)
    requires j < |s.procs|
  {
    var q := s.procs[j].parent;
    q == -1 || (0 <= q < |s.procs| && q != j && MayHave(s.procs[q].pc, j))
  }

  predicate WakingInit(s: State) {
    0 <= s.wl < |s.procs| && s.procs[s.wl].pc.Exiting? && s.procs[s.wl].pc.e.WakeInit?
  }

  /** No process sleeps in wait with this zombie to collect, unless its wakeup is due. */
  ghost predicate ChildOk(s: State, q: nat)
    requires q < |s.procs|
  {
    var p := s.procs[q].parent;
    IsZombie(s.procs[q].pc) && 0 <= p < |s.procs| && Waiting(s.procs[p]) ==> p == INIT && WakingInit(s)
  }

  /** A process about to become a zombie has its parent awake. */
  ghost predicate DyingOk(s: State, w: nat)
    requires w < |s.procs|
  {
    var x := s.procs[w];
    x.pc.Exiting? && x.pc.e.Die? && 0 <= x.parent < |s.procs| ==> !Waiting(s.procs[x.parent])
  }

  ghost predicate ScanOk(s: State, j: nat)
    requires j < |s.procs|
  {
    var p := s.procs[j].parent;
    0 <= p < |s.procs| && Passed(s.procs[p].pc, j) ==> !IsZombie(s.procs[j].pc)
  }

  ghost predicate PidOk(s: State, p: nat)
    requires p < |s.procs|
  {
    var x := s.procs[p];
    !x.pc.None? ==>
      && 0 < x.pid < s.nextpid && x.pid !in s.reaped
      && (x.pid in s.exits <==> IsZombie(x.pc))
      && (IsZombie(x.pc) ==> s.exits[x.pid] == x.xstate)
  }

  ghost predicate PidsDiffer(s: State, p: nat, q: nat)
    requires p < |s.procs| && q < |s.procs|
  {
    p != q && !s.procs[p].pc.None? && !s.procs[q].pc.None? ==> s.procs[p].pid != s.procs[q].pid
  }

  ghost predicate BooksOk(s: State) {
    && s.nextpid > 0
    && (forall k {:trigger k in s.exits} :: k in s.exits ==> k < s.nextpid)
    && (forall k {:trigger k in s.reaped} :: k in s.reaped ==> k in s.exits && s.exits[k] == s.reaped[k])
  }

  /** init is there, has no parent and never exits. */
  ghost predicate InitOk(s: State) {
    && INIT < |s.procs| && -1 <= s.wl < |s.procs|
    && s.procs[INIT].parent == -1
    && !s.procs[INIT].pc.Exiting? && !s.procs[INIT].pc.None? && !s.procs[INIT].pc.Made? && !s.procs[INIT].pc.Ready?
  }

  ghost predicate ProcOk(s: State, p: nat)
    requires p < |s.procs|
  {
    Runs(s, p) && ParentOk(s, p) && ChildOk(s, p) && DyingOk(s, p) && ScanOk(s, p) && PidOk(s, p)
  }

  ghost predicate Inv(s: State) {
    && InitOk(s) && BooksOk(s)
    && (forall p {:trigger ProcOk(s, p)} :: 0 <= p < |s.procs| ==> ProcOk(s, p))
    && (forall p, q {:trigger PidsDiffer(s, p, q)} :: 0 <= p < |s.procs| && 0 <= q < |s.procs| ==> PidsDiffer(s, p, q))
  }

  // ---- a change to one process ----

  ghost predicate Only(s: State, t: State, p: nat) {
    |t.procs| == |s.procs| && p < |s.procs| && forall q {:trigger t.procs[q]} :: 0 <= q < |s.procs| && q != p ==>
      t.procs[q] == s.procs[q]
  }

  predicate ForksInto(x: Proc, c: nat) { (x.pc.Adopt? || x.pc.Launch?) && x.pc.c == c }

  /** The changed process itself meets every clause. */
  ghost predicate SafeSelf(t: State, p: nat) {
    InitOk(t) && BooksOk(t) && p < |t.procs| && ProcOk(t, p)
  }

  /** The clauses about its children, the slot it was forked into and those it forks. */
  ghost predicate SafeKid(s: State, t: State, p: nat, j: nat)
    requires p < |s.procs| == |t.procs| && j < |s.procs|
  {
    && (s.procs[j].parent == p ==>
          && MayHave(t.procs[p].pc, j)
          && (IsZombie(s.procs[j].pc) && Waiting(t.procs[p]) ==> p == INIT && WakingInit(t))
          && (s.procs[j].pc.Exiting? && s.procs[j].pc.e.Die? ==> !Waiting(t.procs[p]))
          && (Passed(t.procs[p].pc, j) ==> !IsZombie(s.procs[j].pc)))
    && (ForksInto(s.procs[j], p) ==> t.procs[p].pc == Made(j) && (t.procs[p].parent == -1 || t.procs[p].parent == j))
  }

  /** wait_lock passes only to or from the process; a wakeup of init that ends has been done;
      pids stay distinct. */
  ghost predicate SafeWorld(s: State, t: State, p: nat)
    requires p < |s.procs| == |t.procs|
  {
    && (t.wl == s.wl || (s.wl == p && t.wl == -1) || (s.wl == -1 && t.wl == p))
    && (WakingInit(s) && !WakingInit(t) ==> INIT < |t.procs| && !Waiting(t.procs[INIT]))
    && s.nextpid <= t.nextpid
    && (t.exits == s.exits || t.exits == s.exits[s.procs[p].pid := t.procs[p].xstate])
    && (t.reaped == s.reaped)
    && (t.procs[p].pc.None? || t.procs[p].pid == s.nextpid
      || (t.procs[p].pid == s.procs[p].pid && !s.procs[p].pc.None?))
    && (t.exits == s.exits || !s.procs[p].pc.None?)
  }

  ghost predicate Safe(s: State, t: State, p: nat) {
    && Only(s, t, p) && SafeSelf(t, p) && SafeWorld(s, t, p)
    && forall j {:trigger SafeKid(s, t, p, j)} :: 0 <= j < |s.procs| && j != p ==> SafeKid(s, t, p, j)
  }

  lemma OtherOk(s: State, t: State, p: nat, q: nat)
    requires Inv(s) && Safe(s, t, p) && q < |s.procs| && q != p
    ensures ProcOk(t, q)
  {
    hide HasWl, StateOk, MayHave, Passed, IsZombie, Waiting;
    assert ProcOk(s, q) && SafeKid(s, t, p, q) && PidsDiffer(s, p, q);
    assert t.procs[q] == s.procs[q];
    if s.procs[q].pc.Adopt? || s.procs[q].pc.Launch? {
      var c := s.procs[q].pc.c;
      if c == p { assert ForksInto(s.procs[q], p); } else { assert t.procs[c] == s.procs[c]; }
    }
    if 0 <= s.procs[q].parent < |s.procs| && s.procs[q].parent != p {
      assert t.procs[s.procs[q].parent] == s.procs[s.procs[q].parent];
    }
  }

  lemma PidsStay(s: State, t: State, p: nat, q: nat, r: nat)
    requires Inv(s) && Safe(s, t, p) && q < |s.procs| && r < |s.procs|
    ensures PidsDiffer(t, q, r)
  {
    hide Runs, ParentOk, ChildOk, DyingOk, ScanOk, SafeKid, InitOk;
    assert PidsDiffer(s, q, r) && ProcOk(s, q) && ProcOk(s, r);
    if q != p { assert t.procs[q] == s.procs[q]; }
    if r != p { assert t.procs[r] == s.procs[r]; }
  }

  /** A safe change to one process keeps the invariant. */
  lemma OneChange(s: State, t: State, p: nat)
    requires Inv(s) && Safe(s, t, p)
    ensures Inv(t)
  {
    hide ProcOk, PidsDiffer, SafeKid, SafeWorld;
    forall q | 0 <= q < |t.procs| ensures ProcOk(t, q) {
      if q != p { OtherOk(s, t, p, q); }
    }
    forall q, r | 0 <= q < |t.procs| && 0 <= r < |t.procs| ensures PidsDiffer(t, q, r) {
      PidsStay(s, t, p, q, r);
    }
  }

  /** What the invariant says of a process and its parent. */
  ghost predicate Known(s: State, p: nat)
    requires p < |s.procs|
  {
    ProcOk(s, p) && (0 <= s.procs[p].parent < |s.procs| ==> ProcOk(s, s.procs[p].parent))
  }

  lemma Knows(s: State, p: nat)
    requires Inv(s) && p < |s.procs|
    ensures Known(s, p)
  {
    hide ProcOk;
  }

  // ---- exit ----

  /** Steps of exit that change no other process. */
  predicate AloneExit(s: State, p: nat) {
    && p < |s.procs| && s.procs[p].pc.Exiting?
    && var e := s.procs[p].pc.e;
      && ExitReady(s, s.procs[p], e) && !e.WakeInit? && !e.WakeParent?
      && (e.Reparent? ==> e.i >= |s.procs| || s.procs[e.i].parent != p)
  }

  function ExitNext(s: State, p: nat): State
    requires p < |s.procs| && s.procs[p].pc.Exiting?
  {
    ExitStep(s, p, s.procs[p].pc.e, s.procs[p].pc.st)
  }

  lemma AloneExitBooks(s: State, p: nat)
    requires Inv(s) && AloneExit(s, p)
    ensures InitOk(ExitNext(s, p)) && BooksOk(ExitNext(s, p)) && PidOk(ExitNext(s, p), p)
  {
    hide Runs, ParentOk, ChildOk, DyingOk, ScanOk, PidsDiffer;
    Knows(s, p);
  }

  lemma AloneExitRuns(s: State, p: nat)
    requires Inv(s) && AloneExit(s, p)
    ensures |ExitNext(s, p).procs| == |s.procs| && Runs(ExitNext(s, p), p) && ParentOk(ExitNext(s, p), p)
  {
    hide PidOk, BooksOk, ChildOk, DyingOk, ScanOk;
    Knows(s, p);
  }

  lemma AloneExitSelf(s: State, p: nat)
    requires Inv(s) && AloneExit(s, p)
    ensures SafeSelf(ExitNext(s, p), p)
  {
    hide PidOk, BooksOk, StateOk, InitOk;
    AloneExitRuns(s, p);
    AloneExitBooks(s, p);
    Knows(s, p);
  }

  lemma AloneExitKid(s: State, p: nat, j: nat)
    requires Inv(s) && AloneExit(s, p) && j < |s.procs| && j != p
    ensures |ExitNext(s, p).procs| == |s.procs| && SafeKid(s, ExitNext(s, p), p, j)
  {
    Knows(s, p);
    Knows(s, j);
  }

  lemma AloneExitOk(s: State, p: nat)
    requires Inv(s) && AloneExit(s, p)
    ensures Inv(ExitNext(s, p))
  {
    Knows(s, p);
    hide PidOk, ParentOk, ChildOk, DyingOk, ScanOk;
    var t := ExitNext(s, p);
    AloneExitSelf(s, p);
    assert Only(s, t, p);
    assert SafeWorld(s, t, p);
    forall j: nat | j < |s.procs| && j != p ensures SafeKid(s, t, p, j) {
      AloneExitKid(s, p, j);
    }
    OneChange(s, t, p);
  }

  /** wakeup of a process whose lock is free leaves it awake. */
  lemma WakeupOk(s: State, q: int)
    requires Inv(s) && LockFree(s, q)
    ensures Inv(Wakeup(s, q)) && |Wakeup(s, q).procs| == |s.procs|
    ensures 0 <= q < |s.procs| ==> !Waiting(Wakeup(s, q).procs[q])
  {
    var t := Wakeup(s, q);
    if 0 <= q < |s.procs| { Knows(s, q); }
    if t != s {
      forall j: nat | j < |s.procs| && j != q ensures SafeKid(s, t, q, j) {
        Knows(s, j);
      }
      OneChange(s, t, q);
    }
  }

  /** The move after a wakeup: on with reparent, or to the brink of death. */
  lemma AfterWake(s: State, p: nat, e: ExitPc)
    requires Inv(s) && p < |s.procs| && s.procs[p].pc.Exiting?
    requires s.procs[p].pc.e.WakeInit? ==> e == Reparent(s.procs[p].pc.e.i + 1) && !Waiting(s.procs[INIT])
    requires s.procs[p].pc.e.WakeParent? ==>
      e == Die && (0 <= s.procs[p].parent < |s.procs| ==> !Waiting(s.procs[s.procs[p].parent]))
    requires s.procs[p].pc.e.WakeInit? || s.procs[p].pc.e.WakeParent?
    ensures Inv(Goto(s, p, s.procs[p].pc.(e := e)))
  {
    Knows(s, p);
    var t := Goto(s, p, s.procs[p].pc.(e := e));
    forall j: nat | j < |s.procs| && j != p ensures SafeKid(s, t, p, j) {
      Knows(s, j);
    }
    OneChange(s, t, p);
  }

  lemma WakeExit(s: State, p: nat)
    requires Inv(s) && p < |s.procs| && s.procs[p].pc.Exiting? && ExitReady(s, s.procs[p], s.procs[p].pc.e)
    requires s.procs[p].pc.e.WakeInit? || s.procs[p].pc.e.WakeParent?
    ensures Inv(ExitNext(s, p))
  {
    hide ProcOk, PidsDiffer;
    var x := s.procs[p];
    NotSelf(s, p);
    if x.pc.e.WakeInit? {
      WakeupOk(s, INIT);
      AfterWake(Wakeup(s, INIT), p, Reparent(x.pc.e.i + 1));
    } else {
      WakeupOk(s, x.parent);
      AfterWake(Wakeup(s, x.parent), p, Die);
    }
  }

  lemma NotSelf(s: State, p: nat)
    requires Inv(s) && p < |s.procs|
    ensures s.procs[p].parent != p && (s.procs[p].pc.Exiting? ==> p != INIT)
  {
    Knows(s, p);
  }

  // ---- reparent ----

  /** reparent is at a child of the exiting process. */
  predicate AtChild(s: State, p: nat) {
    && p < |s.procs| && s.procs[p].pc.Exiting? && s.procs[p].pc.e.Reparent?
    && s.procs[p].pc.e.i < |s.procs| && s.procs[s.procs[p].pc.e.i].parent == p
  }

  lemma ReparentOther(s: State, p: nat, q: nat)
    requires Inv(s) && AtChild(s, p) && q < |s.procs| && q != p && q != s.procs[p].pc.e.i
    ensures ProcOk(ExitNext(s, p), q)
  {
    hide StateOk;
    Knows(s, p);
    Knows(s, q);
    Knows(s, s.procs[p].pc.e.i);
    var t := ExitNext(s, p);
    assert Runs(t, q);
    assert ParentOk(t, q);
    assert ChildOk(t, q);
    assert DyingOk(t, q);
    assert ScanOk(t, q);
    assert PidOk(t, q);
  }

  lemma ReparentChild(s: State, p: nat)
    requires Inv(s) && AtChild(s, p)
    ensures ProcOk(ExitNext(s, p), s.procs[p].pc.e.i)
  {
    Knows(s, p);
    Knows(s, s.procs[p].pc.e.i);
    Knows(s, INIT);
    var t, i := ExitNext(s, p), s.procs[p].pc.e.i;
    assert Runs(t, i);
    assert ParentOk(t, i);
    assert ChildOk(t, i);
    assert DyingOk(t, i);
    assert ScanOk(t, i);
    assert PidOk(t, i);
  }

  lemma ReparentSelf(s: State, p: nat)
    requires Inv(s) && AtChild(s, p)
    ensures ProcOk(ExitNext(s, p), p)
  {
    Knows(s, p);
    Knows(s, s.procs[p].pc.e.i);
  }

  lemma ReparentOk(s: State, p: nat)
    requires Inv(s) && AtChild(s, p)
    ensures Inv(ExitNext(s, p))
  {
    hide ProcOk;
    var t := ExitNext(s, p);
    NotSelf(s, p);
    NotSelf(s, s.procs[p].pc.e.i);
    forall q | 0 <= q < |t.procs| ensures ProcOk(t, q) {
      if q == p { ReparentSelf(s, p); }
      else if q == s.procs[p].pc.e.i { ReparentChild(s, p); }
      else { ReparentOther(s, p, q); }
    }
    forall q, r | 0 <= q < |t.procs| && 0 <= r < |t.procs| ensures PidsDiffer(t, q, r) {
      assert PidsDiffer(s, q, r);
    }
  }

  // ---- wait ----

  /** Steps of wait that change no other process. */
  predicate AloneWait(s: State, p: nat) {
    && p < |s.procs| && s.procs[p].pc.InWait?
    && var w := s.procs[p].pc.w;
      WaitReady(s, p, w) && (w.Scan? ==> !ZombieChild(s, p, w.i))
  }

  function WaitNext(s: State, p: nat): State
    requires p < |s.procs| && s.procs[p].pc.InWait?
  {
    WaitStep(s, p, s.procs[p].pc.w)
  }

  lemma AloneWaitRuns(s: State, p: nat)
    requires Inv(s) && AloneWait(s, p)
    ensures InitOk(WaitNext(s, p)) && Runs(WaitNext(s, p), p)
  {
    hide PidOk, BooksOk, ParentOk, ChildOk, DyingOk, ScanOk;
    Knows(s, p);
  }

  lemma AloneWaitBooks(s: State, p: nat)
    requires Inv(s) && AloneWait(s, p)
    ensures BooksOk(WaitNext(s, p)) && |WaitNext(s, p).procs| == |s.procs| && PidOk(WaitNext(s, p), p)
  {
    hide Runs, ParentOk, ChildOk, DyingOk, ScanOk, PidsDiffer;
    Knows(s, p);
  }

  lemma AloneWaitSelf(s: State, p: nat)
    requires Inv(s) && AloneWait(s, p)
    ensures SafeSelf(WaitNext(s, p), p)
  {
    hide PidOk, BooksOk, Runs, InitOk;
    AloneWaitRuns(s, p);
    AloneWaitBooks(s, p);
    Knows(s, p);
  }

  lemma ScanKid(s: State, p: nat, j: nat)
    requires Inv(s) && AloneWait(s, p) && j < |s.procs| && j != p && s.procs[p].pc.w.Scan?
    ensures |WaitNext(s, p).procs| == |s.procs| && SafeKid(s, WaitNext(s, p), p, j)
  {
    hide PidOk, BooksOk;
    Knows(s, p);
    Knows(s, j);
  }

  lemma AloneWaitKid(s: State, p: nat, j: nat)
    requires Inv(s) && AloneWait(s, p) && j < |s.procs| && j != p && !s.procs[p].pc.w.Scan?
    ensures |WaitNext(s, p).procs| == |s.procs| && SafeKid(s, WaitNext(s, p), p, j)
  {
    hide PidOk, BooksOk, StateOk;
    Knows(s, p);
    Knows(s, j);
  }

  lemma AloneWaitOk(s: State, p: nat)
    requires Inv(s) && AloneWait(s, p)
    ensures Inv(WaitNext(s, p))
  {
    hide PidOk, ParentOk, ChildOk, DyingOk, ScanOk;
    Knows(s, p);
    var t := WaitNext(s, p);
    AloneWaitSelf(s, p);
    assert Only(s, t, p);
    assert SafeWorld(s, t, p);
    forall j: nat | j < |s.procs| && j != p ensures SafeKid(s, t, p, j) {
      if s.procs[p].pc.w.Scan? { ScanKid(s, p, j); } else { AloneWaitKid(s, p, j); }
    }
    OneChange(s, t, p);
  }

  /** A free slot in place of a process without children that no fork is filling. */
  lemma FreedOk(s: State, i: nat)
    requires Inv(s) && i < |s.procs| && i != INIT && !HasWl(s.procs[i].pc)
    requires s.procs[i].pc.Made? || (s.procs[i].pc.Exiting? && s.procs[i].pc.e.Dead?)
    requires forall j :: 0 <= j < |s.procs| ==> !ForksInto(s.procs[j], i)
    ensures Inv(Put(s, i, FreeProc))
  {
    Knows(s, i);
    var t := Put(s, i, FreeProc);
    forall j: nat | j < |s.procs| && j != i ensures SafeKid(s, t, i, j) {
      Knows(s, j);
    }
    OneChange(s, t, i);
  }

  /** wait gives wait_lock back and returns to user space. */
  lemma ReturnOk(s: State, p: nat)
    requires Inv(s) && p < |s.procs| && s.procs[p].pc.InWait? && WaitHasWl(s.procs[p].pc.w) && !s.procs[p].pc.w.Drop?
    ensures Inv(Goto(s, p, User).(wl := -1))
  {
    hide PidsDiffer;
    Knows(s, p);
    var t := Goto(s, p, User).(wl := -1);
    forall j: nat | j < |s.procs| && j != p ensures SafeKid(s, t, p, j) {
      Knows(s, j);
    }
    OneChange(s, t, p);
  }

  /** A status enters the books of wait once, and as exit recorded it. */
  lemma BookOk(s: State, pid: nat, st: int)
    requires Inv(s) && pid in s.exits && s.exits[pid] == st
    requires forall q {:trigger s.procs[q]} :: 0 <= q < |s.procs| && !s.procs[q].pc.None? ==> s.procs[q].pid != pid
    ensures Inv(s.(reaped := s.reaped[pid := st]))
  {
    hide StateOk, MayHave, HasWl, IsZombie, Waiting, Passed;
    var t := s.(reaped := s.reaped[pid := st]);
    forall q | 0 <= q < |t.procs| ensures ProcOk(t, q) { assert ProcOk(s, q); }
    forall q, r | 0 <= q < |t.procs| && 0 <= r < |t.procs| ensures PidsDiffer(t, q, r) { assert PidsDiffer(s, q, r); }
  }

  /** A zombie whose lock is free has left its stack, and no fork is filling its slot. */
  lemma ZombieIsDead(s: State, i: nat)
    requires Inv(s) && i < |s.procs| && s.procs[i].state == ZOMBIE && LockFree(s, i)
    ensures s.procs[i].pc.Exiting? && s.procs[i].pc.e.Dead?
    ensures s.procs[i].pid in s.exits && s.exits[s.procs[i].pid] == s.procs[i].xstate && s.procs[i].pid !in s.reaped
    ensures forall j :: 0 <= j < |s.procs| ==> !ForksInto(s.procs[j], i)
    ensures forall q {:trigger s.procs[q]} :: 0 <= q < |s.procs| && q != i && !s.procs[q].pc.None? ==>
      s.procs[q].pid != s.procs[i].pid
  {
    hide ParentOk, ChildOk, DyingOk, ScanOk, MayHave, Waiting, Passed;
    Knows(s, i);
    forall j | 0 <= j < |s.procs| ensures !ForksInto(s.procs[j], i) { Knows(s, j); }
    forall q | 0 <= q < |s.procs| && q != i && !s.procs[q].pc.None? ensures s.procs[q].pid != s.procs[i].pid {
      assert PidsDiffer(s, q, i);
    }
  }

  lemma ReapOk(s: State, p: nat)
    requires Inv(s) && p < |s.procs| && s.procs[p].pc.InWait? && s.procs[p].pc.w.Scan?
    requires ZombieChild(s, p, s.procs[p].pc.w.i) && LockFree(s, s.procs[p].pc.w.i)
    ensures Inv(WaitNext(s, p))
  {
    hide ProcOk, PidsDiffer, InitOk, BooksOk;
    var i := s.procs[p].pc.w.i;
    var x := s.procs[i];
    ZombieIsDead(s, i);
    NotSelf(s, i);
    FreedOk(s, i);
    var u := Put(s, i, FreeProc);
    ReturnOk(u, p);
    BookOk(Goto(u, p, User).(wl := -1), x.pid, x.xstate);
  }

  // ---- fork and the other calls ----

  /** Between user space and a point of fork, exit or wait where it holds no lock. */
  predicate Loose(pc: Pc) { pc.User? || pc.Adopt? || pc.Launch? || pc == InWait(Begin) || (pc.Exiting? && pc.e.Enter?) }

  lemma LooseOk(s: State, p: nat, pc: Pc)
    requires Inv(s) && p < |s.procs| && Loose(s.procs[p].pc) && Loose(pc)
    requires pc.Exiting? ==> p != INIT
    requires pc.Adopt? || pc.Launch? ==>
      pc.c < |s.procs| && s.procs[pc.c].pc == Made(p) && (s.procs[pc.c].parent == -1 || s.procs[pc.c].parent == p)
    ensures Inv(Goto(s, p, pc))
  {
    hide PidsDiffer;
    Knows(s, p);
    var t := Goto(s, p, pc);
    forall j: nat | j < |s.procs| && j != p ensures SafeKid(s, t, p, j) {
      Knows(s, j);
    }
    OneChange(s, t, p);
  }

  lemma MadeOk(s: State, p: nat, c: nat)
    requires Inv(s) && p < |s.procs| && c < |s.procs| && s.procs[c].state == UNUSED
    ensures Inv(Put(s, c, FreeProc.(pc := Made(p), state := USED, pid := s.nextpid)).(nextpid := s.nextpid + 1))
  {
    Knows(s, c);
    var t := Put(s, c, FreeProc.(pc := Made(p), state := USED, pid := s.nextpid)).(nextpid := s.nextpid + 1);
    forall j: nat | j < |s.procs| && j != c ensures SafeKid(s, t, c, j) {
      Knows(s, j);
    }
    OneChange(s, t, c);
  }

  /** What fork does to the slot it fills: set its parent, or let it run. */
  lemma ChildStepOk(s: State, p: nat, c: nat, y: Proc)
    requires Inv(s) && p < |s.procs| && c < |s.procs| && s.procs[c].pc == Made(p)
    requires
      || (y == s.procs[c].(parent := p) && ForksInto(s.procs[p], c))
      || (y == s.procs[c].(pc := Ready, state := RUNNABLE) && s.procs[p].pc.User?)
    ensures Inv(Put(s, c, y))
  {
    hide PidsDiffer;
    Knows(s, c);
    Knows(s, p);
    var t := Put(s, c, y);
    forall j: nat | j < |s.procs| && j != c ensures SafeKid(s, t, c, j) {
      Knows(s, j);
    }
    OneChange(s, t, c);
  }

  lemma ForkSlot(s: State, p: nat)
    requires Inv(s) && p < |s.procs| && (s.procs[p].pc.Adopt? || s.procs[p].pc.Launch?)
    ensures var c := s.procs[p].pc.c;
      c != p && c < |s.procs| && c != INIT && s.procs[c].pc == Made(p) && s.procs[c].parent in {-1, p as int}
    ensures forall j :: 0 <= j < |s.procs| && j != p ==> !ForksInto(s.procs[j], s.procs[p].pc.c)
  {
    Knows(s, p);
    forall j | 0 <= j < |s.procs| && j != p ensures !ForksInto(s.procs[j], s.procs[p].pc.c) { Knows(s, j); }
  }

  lemma ForkOk(s: State, p: nat)
    requires Inv(s) && p < |s.procs| && (s.procs[p].pc.Adopt? || s.procs[p].pc.Launch?)
    ensures Inv(ForkStep(s, p))
  {
    hide ProcOk, PidsDiffer, InitOk, BooksOk;
    ForkSlot(s, p);
    var c := s.procs[p].pc.c;
    if s.procs[p].pc.Adopt? {
      var y := s.procs[c].(parent := p);
      ChildStepOk(s, p, c, y);
      LooseOk(Put(s, c, y), p, Launch(c));
    } else {
      var y := s.procs[c].(pc := Ready, state := RUNNABLE);
      LooseOk(s, p, User);
      var u := Goto(s, p, User);
      ChildStepOk(u, p, c, y);
      assert Put(u, c, y).procs == ForkStep(s, p).procs;
    }
  }

  lemma AbandonOk(s: State, p: nat)
    requires Inv(s) && p < |s.procs| && s.procs[p].pc.Adopt?
    ensures s.procs[p].pc.c < |s.procs| && Inv(Goto(Put(s, s.procs[p].pc.c, FreeProc), p, User))
  {
    hide ProcOk, PidsDiffer, InitOk, BooksOk;
    ForkSlot(s, p);
    var c := s.procs[p].pc.c;
    LooseOk(s, p, User);
    var u := Goto(s, p, User);
    FreedOk(u, c);
    assert Put(u, c, FreeProc).procs == Goto(Put(s, c, FreeProc), p, User).procs;
  }

  lemma CallForkOk(s: State, p: nat, c: nat)
    requires Inv(s) && p < |s.procs| && s.procs[p].pc.User? && c < |s.procs| && s.procs[c].state == UNUSED
    ensures Inv(CallStep(s, Fork(p, c)))
  {
    hide ProcOk, PidsDiffer, InitOk, BooksOk;
    Knows(s, p);
    MadeOk(s, p, c);
    assert c != p by { UserRuns(s, p); }
    LooseOk(Put(s, c, FreeProc.(pc := Made(p), state := USED, pid := s.nextpid)).(nextpid := s.nextpid + 1),
            p, Adopt(c));
  }

  lemma UserRuns(s: State, p: nat)
    requires Inv(s) && p < |s.procs| && s.procs[p].pc.User?
    ensures s.procs[p].state == RUNNING
  {
    Knows(s, p);
  }

  /** The scheduler and kill change one process. */
  lemma OutsideOk(s: State, a: Action)
    requires Inv(s) && Enabled(s, a) && (a.Release? || a.Dispatch? || a.Kill?)
    ensures Inv(CallStep(s, a))
  {
    hide PidsDiffer;
    var t := CallStep(s, a);
    Knows(s, a.p);
    forall j: nat | j < |s.procs| && j != a.p ensures SafeKid(s, t, a.p, j) {
      Knows(s, j);
    }
    OneChange(s, t, a.p);
  }

  lemma CallOk(s: State, a: Action)
    requires Inv(s) && Enabled(s, a) && !a.Step?
    ensures Inv(CallStep(s, a))
  {
    hide ProcOk, PidsDiffer, InitOk, BooksOk;
    match a
    case Fork(p, c) => CallForkOk(s, p, c);
    case Abandon(p) => AbandonOk(s, p);
    case Exit(p, st) => LooseOk(s, p, Exiting(Enter, st));
    case Wait(p) => LooseOk(s, p, InWait(Begin));
    case Fail(p) => ReturnOk(s, p);
    case _ => OutsideOk(s, a);
  }

  /** Every step of every process keeps the invariant. */
  lemma NextInv(s: State, a: Action)
    requires Inv(s) && Enabled(s, a)
    ensures Inv(Next(s, a))
  {
    hide ProcOk, PidsDiffer, InitOk, BooksOk;
    var p := a.p;
    var pc := s.procs[p].pc;
    if !a.Step? {
      CallOk(s, a);
    } else if pc.Exiting? {
      if AtChild(s, p) { ReparentOk(s, p); } else if AloneExit(s, p) { AloneExitOk(s, p); } else { WakeExit(s, p); }
    } else if pc.InWait? {
      if pc.w.Scan? && ZombieChild(s, p, pc.w.i) { ReapOk(s, p); } else { AloneWaitOk(s, p); }
    } else {
      ForkOk(s, p);
    }
  }

  /** userinit: init is the only process, already running in user space (kernel/proc.c:240-263). */
  predicate Initial(s: State) {
    && 0 < |s.procs| && s.wl == -1 && s.nextpid == 2 && s.exits == map[] && s.reaped == map[]
    && s.procs[INIT] == Proc(User, RUNNING, -1, false, 0, 1)
    && forall p :: 0 < p < |s.procs| ==> s.procs[p] == FreeProc
  }

  lemma InitialInv(s: State)
    requires Initial(s)
    ensures Inv(s)
  {
  }

  /** The states a run passes through. */
  ghost predicate Run(ss: seq<State>, acts: seq<Action>) {
    && |ss| == |acts| + 1 && Initial(ss[0])
    && forall k :: 0 <= k < |acts| ==> Enabled(ss[k], acts[k]) && ss[k + 1] == Next(ss[k], acts[k])
  }

  lemma {:induction false} RunInv(ss: seq<State>, acts: seq<Action>, n: nat)
    requires Run(ss, acts) && n < |ss|
    ensures Inv(ss[n])
  {
    hide Inv, Initial, Enabled, Next;
    if n == 0 {
      InitialInv(ss[0]);
    } else {
      RunInv(ss, acts, n - 1);
      NextInv(ss[n - 1], acts[n - 1]);
    }
  }

  /** With wait_lock free, no process sleeps in wait while it has a ZOMBIE child. */
  lemma NoLostExit(ss: seq<State>, acts: seq<Action>, n: nat, p: nat, q: nat)
    requires Run(ss, acts) && n < |ss| && p < |ss[n].procs| && q < |ss[n].procs|
    requires ss[n].wl == -1 && ss[n].procs[q].state == ZOMBIE && ss[n].procs[q].parent == p
    ensures !Waiting(ss[n].procs[p])
  {
    RunInv(ss, acts, n);
    Knows(ss[n], q);
  }

  /** No child is lost: a parent is never a free slot, one still being made or a ZOMBIE. */
  lemma ParentsAlive(ss: seq<State>, acts: seq<Action>, n: nat, q: nat)
    requires Run(ss, acts) && n < |ss| && q < |ss[n].procs| && ss[n].procs[q].parent != -1
    ensures var p := ss[n].procs[q].parent;
      0 <= p < |ss[n].procs| && ss[n].procs[p].state !in {UNUSED, USED, ZOMBIE}
  {
    RunInv(ss, acts, n);
    Knows(ss[n], q);
  }

  /** wait returns -1 only to a process that has no children or has been killed (or whose
      buffer cannot be written: Fail). */
  lemma WaitGivesUp(ss: seq<State>, acts: seq<Action>, n: nat, p: nat)
    requires Run(ss, acts) && n < |acts| && acts[n] == Step(p)
    requires ss[n].procs[p].pc.InWait? && ss[n + 1].procs[p].pc.User? && ss[n + 1].reaped == ss[n].reaped
    ensures ss[n].procs[p].killed || forall q :: 0 <= q < |ss[n].procs| ==> ss[n].procs[q].parent != p
  {
    RunInv(ss, acts, n);
    var s := ss[n];
    assert Enabled(s, acts[n]) && ss[n + 1] == Next(s, acts[n]);
    var w := s.procs[p].pc.w;
    if w.Scan? && ZombieChild(s, p, w.i) {
      ZombieIsDead(s, w.i);
      assert false;
    }
    forall q | 0 <= q < |s.procs| && !s.procs[p].killed ensures s.procs[q].parent != p { Knows(s, q); }
  }
}
