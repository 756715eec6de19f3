/** wait and kill from call to return, over whole runs of kernel/proc.c: how a wait can end, how far it
    is from ending or sleeping, and exactly when it sleeps through a kill. */
module WaitCalls {
  import opened ExitWait
  import opened ExitTree
  import opened ProcCalls
  import opened Counting

  // ---- how wait ends ----

  /** A process leaves wait by a step of its own, back to user space and without wait_lock. */
  ghost predicate OwnReturn(s: State, t: State, a: Action, p: nat)
    requires p < |s.procs| == |t.procs|
  {
    s.procs[p].pc.InWait? && !t.procs[p].pc.InWait? ==>
      a.p == p && (a.Fail? || a.Step?) && t.procs[p].pc == User && t.wl == -1
  }

  lemma CallReturn(s: State, a: Action, p: nat)
    requires Inv(s) && Enabled(s, a) && p < |s.procs| && !a.Step?
    ensures |CallStep(s, a).procs| == |s.procs| && OwnReturn(s, CallStep(s, a), a, p)
  {
    hide ParentOk, ChildOk, DyingOk, ScanOk, PidOk, PidsDiffer, BooksOk, InitOk;
    Knows(s, p);
    Knows(s, a.p);
  }

  lemma WaitReturn(s: State, q: nat, p: nat)
    requires Inv(s) && p < |s.procs| && q < |s.procs| && s.procs[q].pc.InWait? && WaitReady(s, q, s.procs[q].pc.w)
    ensures |WaitNext(s, q).procs| == |s.procs| && OwnReturn(s, WaitNext(s, q), Step(q), p)
  {
    hide ParentOk, ChildOk, DyingOk, ScanOk, PidOk, PidsDiffer, BooksOk, InitOk;
    Knows(s, p);
    match s.procs[q].pc.w
    case Scan(i, kids) =>
    case Decide(kids) =>
    case _ =>
  }

  lemma StepReturn(s: State, a: Action, p: nat)
    requires Inv(s) && Enabled(s, a) && p < |s.procs|
    ensures |Next(s, a).procs| == |s.procs| && OwnReturn(s, Next(s, a), a, p)
  {
    hide Inv, CallStep, ExitStep, WaitStep;
    if !a.Step? {
      CallReturn(s, a, p);
    } else if s.procs[a.p].pc.Exiting? {
      ExitElsewhere(s, a.p, p);
    } else if s.procs[a.p].pc.InWait? {
      WaitReturn(s, a.p, p);
    } else {
      ForkSlot(s, a.p);
    }
  }

  /** wait has collected a dead child, with the status it left. */
  ghost predicate GotChild(s: State, t: State, p: nat)
    requires |s.procs| == |t.procs|
  {
    exists i :: 0 <= i < |s.procs| && Collected(s, t, p, i)
  }

  /** wait returns in three ways only: with a child it has collected; with -1, to a process that has
      no children or has been killed; or with -1 because the status could not be copied out. */
  lemma WaitReturns(ss: seq<State>, acts: seq<Action>, n: nat, p: nat)
    requires Run(ss, acts) && n < |acts| && p < |ss[n].procs| == |ss[n + 1].procs|
    requires ss[n].procs[p].pc.InWait? && !ss[n + 1].procs[p].pc.InWait?
    ensures ss[n + 1].procs[p].pc == User && ss[n + 1].wl == -1
    ensures
      || GotChild(ss[n], ss[n + 1], p)
      || (acts[n] == Step(p) && ss[n].procs[p].killed)
      || (acts[n] == Step(p) && forall q :: 0 <= q < |ss[n].procs| ==> ss[n].procs[q].parent != p)
      || acts[n] == Fail(p)
  {
    hide Inv, Initial, Enabled, Next;
    RunInv(ss, acts, n);
    StepReturn(ss[n], acts[n], p);
    CollectedOnce(ss, acts, n);
    if acts[n].Step? && ss[n + 1].reaped == ss[n].reaped { WaitGivesUp(ss, acts, n, p); }
  }

  // ---- how long wait takes ----

  /** How many steps of its own a wait still takes, with `n` slots, until it returns or is asleep. */
  function WaitLeft(w: WaitPc, n: nat): nat {
    match w
    case Rise => n + 8
    case Begin => n + 7
    case Scan(i, _) => Beyond(i, n) + 6
    case Decide(_) => 5
    case Doze => 4
    case Drop => 3
    case Mark => 2
    case Switch => 1
    case Parked => 0
    case Asleep => 0
  }

  /** In wait, at most `left` own steps from sleeping; or back from it. */
  ghost predicate NearSleep(t: State, p: nat, left: int) {
    p < |t.procs| && (t.procs[p].pc.InWait? ==> WaitLeft(t.procs[p].pc.w, |t.procs|) <= left)
  }

  lemma WaitOwn(s: State, p: nat)
    requires p < |s.procs| && s.procs[p].pc.InWait? && WaitReady(s, p, s.procs[p].pc.w)
    ensures NearSleep(WaitNext(s, p), p, WaitLeft(s.procs[p].pc.w, |s.procs|) - 1)
  {
    match s.procs[p].pc.w
    case Scan(i, kids) =>
    case Decide(kids) =>
    case _ =>
  }

  lemma WaitOther(s: State, a: Action, p: nat)
    requires Enabled(s, a) && p < |s.procs| && s.procs[p].pc.InWait? && a != Step(p) && a != Dispatch(p)
    ensures NearSleep(Next(s, a), p, WaitLeft(s.procs[p].pc.w, |s.procs|))
  {
    hide ExitStep, WaitStep;
    if a.Step? && s.procs[a.p].pc.Exiting? {
      ExitElsewhere(s, a.p, p);
    } else if a.Step? && s.procs[a.p].pc.InWait? {
      WaitElsewhere(s, a.p, p);
    }
  }

  lemma WaitMoves(s: State, a: Action, p: nat, left: int)
    requires Enabled(s, a) && NearSleep(s, p, left) && s.procs[p].pc.InWait? && a != Dispatch(p)
    ensures NearSleep(Next(s, a), p, left - Tally(a, Step(p)))
  {
    hide WaitLeft, WaitStep;
    if a == Step(p) { WaitOwn(s, p); } else { WaitOther(s, a, p); }
  }

  /** A wait that stays in wait and is not dispatched anew is asleep after at most one step per slot
      and eight more: it neither spins nor stops before it sleeps. */
  lemma {:induction false} WaitSleeps(ss: seq<State>, acts: seq<Action>, m: nat, n: nat, p: nat)
    requires Run(ss, acts) && m <= n < |ss|
    requires forall k {:trigger ss[k]} :: m <= k < n ==> p < |ss[k].procs| && ss[k].procs[p].pc.InWait?
    requires forall k {:trigger acts[k]} :: m <= k < n ==> acts[k] != Dispatch(p)
    requires p < |ss[m].procs|
    ensures NearSleep(ss[n], p, |ss[0].procs| + 8 - Count(acts[m..n], Step(p)))
    decreases n
  {
    hide Inv, Initial, NearSleep, Enabled, Next, Count;
    if n == m {
      CountNone(acts, m, Step(p));
      Sizes(ss, acts, m);
      NearAtFirst(ss[m], p);
    } else {
      WaitSleeps(ss, acts, m, n - 1, p);
      CountMore(acts, m, n - 1, Step(p));
      WaitMoves(ss[n - 1], acts[n - 1], p, |ss[0].procs| + 8 - Count(acts[m..n - 1], Step(p)));
    }
  }

  lemma NearAtFirst(s: State, p: nat)
    requires p < |s.procs|
    ensures NearSleep(s, p, |s.procs| + 8)
  {}

  // ---- kill ----

  /** Between the test of killed(p) and the end of the sleep that follows it. */
  predicate PastTest(pc: Pc) {
    pc.InWait? && (pc.w.Doze? || pc.w.Drop? || pc.w.Mark? || pc.w.Switch? || pc.w.Parked? || pc.w.Asleep?)
  }

  /** Past the test, and not woken. */
  predicate Dozing(x: Proc) { PastTest(x.pc) && (x.pc.w.Asleep? ==> x.state == SLEEPING) }

  /** What a step may do to a process past the test. */
  ghost predicate KillStep(s: State, t: State, a: Action, p: nat)
    requires p < |s.procs| == |t.procs|
  {
    var x, y := s.procs[p], t.procs[p];
    && (Dozing(y) && y.killed ==> (Dozing(x) && x.killed) || (a == Kill(p) && x.pc == InWait(Doze)))
    && (PastTest(x.pc) && PastTest(y.pc) && (x.killed || a == Kill(p)) ==> y.killed)
  }

  lemma CallKill(s: State, a: Action, p: nat)
    requires Inv(s) && Enabled(s, a) && p < |s.procs| && !a.Step?
    ensures |CallStep(s, a).procs| == |s.procs| && KillStep(s, CallStep(s, a), a, p)
  {
    hide ParentOk, ChildOk, DyingOk, ScanOk, PidOk, PidsDiffer, BooksOk, InitOk;
    Knows(s, p);
  }

  lemma ExitKill(s: State, q: nat, p: nat)
    requires p < |s.procs| && q < |s.procs| && s.procs[q].pc.Exiting?
    ensures |ExitNext(s, q).procs| == |s.procs| && KillStep(s, ExitNext(s, q), Step(q), p)
  {
    match s.procs[q].pc.e
    case Reparent(i) =>
    case WakeInit(i) =>
    case WakeParent =>
    case _ =>
  }

  lemma WaitKill(s: State, q: nat, p: nat)
    requires Inv(s) && p < |s.procs| && q < |s.procs| && s.procs[q].pc.InWait? && WaitReady(s, q, s.procs[q].pc.w)
    ensures |WaitNext(s, q).procs| == |s.procs| && KillStep(s, WaitNext(s, q), Step(q), p)
  {
    hide ParentOk, ChildOk, DyingOk, ScanOk, PidOk, PidsDiffer, BooksOk, InitOk;
    Knows(s, q);
    match s.procs[q].pc.w
    case Scan(i, kids) =>
    case Decide(kids) =>
    case _ =>
  }

  lemma StepKill(s: State, a: Action, p: nat)
    requires Inv(s) && Enabled(s, a) && p < |s.procs|
    ensures |Next(s, a).procs| == |s.procs| && KillStep(s, Next(s, a), a, p)
  {
    hide Inv, CallStep, ExitStep, WaitStep;
    if !a.Step? {
      CallKill(s, a, p);
    } else if s.procs[a.p].pc.Exiting? {
      ExitKill(s, a.p, p);
    } else if s.procs[a.p].pc.InWait? {
      WaitKill(s, a.p, p);
    } else {
      ForkSlot(s, a.p);
    }
  }

  /** The kill at `m` came after the test of killed(p) and before sleep took p->lock, and the process
      has been in that same sleep since. */
  ghost predicate Missed(ss: seq<State>, acts: seq<Action>, m: nat, n: nat, p: nat) {
    && m < n < |ss| && m < |acts| && acts[m] == Kill(p)
    && (forall k {:trigger ss[k]} :: m <= k <= n ==> p < |ss[k].procs| && PastTest(ss[k].procs[p].pc))
    && ss[m].procs[p].pc == InWait(Doze)
  }

  lemma {:induction false} MissedBy(ss: seq<State>, acts: seq<Action>, n: nat, p: nat) returns (m: nat)
    requires Run(ss, acts) && n < |ss| && p < |ss[n].procs| && Dozing(ss[n].procs[p]) && ss[n].procs[p].killed
    ensures Missed(ss, acts, m, n, p)
    decreases n
  {
    hide Inv, Enabled, Next;
    assert n > 0;
    Sizes(ss, acts, n);
    Sizes(ss, acts, n - 1);
    RunInv(ss, acts, n - 1);
    StepKill(ss[n - 1], acts[n - 1], p);
    if Dozing(ss[n - 1].procs[p]) && ss[n - 1].procs[p].killed {
      m := MissedBy(ss, acts, n - 1, p);
    } else {
      m := n - 1;
    }
  }

  lemma {:induction false} MissedKilled(ss: seq<State>, acts: seq<Action>, m: nat, n: nat, p: nat)
    requires Run(ss, acts) && Missed(ss, acts, m, n, p)
    ensures ss[n].procs[p].killed
    decreases n
  {
    hide Inv, Initial, Enabled, Next, PastTest;
    RunInv(ss, acts, n - 1);
    assert p < |ss[n - 1].procs|;
    StepKill(ss[n - 1], acts[n - 1], p);
    if m < n - 1 { MissedKilled(ss, acts, m, n - 1, p); }
  }

  /** wait sleeps through a kill if and only if the kill comes between its test of killed(p) and the
      acquire(&p->lock) of the sleep that follows. Any other kill finds it awake, and before the test,
      or asleep, and wakes it. */
  lemma SleepsThroughKill(ss: seq<State>, acts: seq<Action>, n: nat, p: nat)
    requires Run(ss, acts) && n < |ss| && p < |ss[n].procs| && Waiting(ss[n].procs[p])
    ensures ss[n].procs[p].killed <==> exists m: nat :: Missed(ss, acts, m, n, p)
  {
    hide Run, Missed;
    if ss[n].procs[p].killed { var m := MissedBy(ss, acts, n, p); }
    if m: nat :| Missed(ss, acts, m, n, p) { MissedKilled(ss, acts, m, n, p); }
  }

  // ---- such a run ----

  lemma Extend(ss: seq<State>, acts: seq<Action>, a: Action)
    requires Run(ss, acts) && Enabled(ss[|ss| - 1], a)
    ensures Run(ss + [Next(ss[|ss| - 1], a)], acts + [a])
  {
    hide Initial, Enabled, Next;
  }

  /** Slot 0 holds init, slot 1 the child it has forked; init is at `pc`. */
  function Pair(pc: Pc, st: ProcState, killed: bool, wl: int): State {
    State([Proc(pc, st, -1, killed, 0, 1), Proc(Ready, RUNNABLE, 0, false, 0, 2)], wl, 3, map[], map[])
  }

  lemma ForkRun() returns (ss: seq<State>, acts: seq<Action>)
    ensures Run(ss, acts) && ss[|ss| - 1] == Pair(User, RUNNING, false, -1)
  {
    var init := Proc(User, RUNNING, -1, false, 0, 1);
    var s := State([init, FreeProc], -1, 2, map[], map[]);
    ss, acts := [s], [];
    Extend(ss, acts, Fork(0, 1));
    ss, acts := ss + [Next(s, Fork(0, 1))], acts + [Fork(0, 1)];
    var t := ss[1];
    assert t == State([init.(pc := Adopt(1)), FreeProc.(pc := Made(0), state := USED, pid := 2)], -1, 3, map[], map[]);
    Extend(ss, acts, Step(0));
    ss, acts := ss + [Next(t, Step(0))], acts + [Step(0)];
    var u := ss[2];
    assert u == State([init.(pc := Launch(1)), FreeProc.(pc := Made(0), state := USED, pid := 2, parent := 0)], -1, 3,
      map[], map[]);
    Extend(ss, acts, Step(0));
    ss, acts := ss + [Next(u, Step(0))], acts + [Step(0)];
  }

  /** One more action of init. */
  lemma Then(ss: seq<State>, acts: seq<Action>, a: Action, t: State) returns (tt: seq<State>, more: seq<Action>)
    requires Run(ss, acts) && Enabled(ss[|ss| - 1], a) && Next(ss[|ss| - 1], a) == t
    ensures Run(tt, more) && tt[|tt| - 1] == t
  {
    Extend(ss, acts, a);
    tt, more := ss + [t], acts + [a];
  }

  lemma DozeRun() returns (ss: seq<State>, acts: seq<Action>)
    ensures Run(ss, acts) && ss[|ss| - 1] == Pair(InWait(Doze), RUNNING, false, 0)
  {
    hide Run;
    ss, acts := ForkRun();
    ss, acts := Then(ss, acts, Wait(0), Pair(InWait(Begin), RUNNING, false, -1));
    ss, acts := Then(ss, acts, Step(0), Pair(InWait(Scan(0, false)), RUNNING, false, 0));
    ss, acts := Then(ss, acts, Step(0), Pair(InWait(Scan(1, false)), RUNNING, false, 0));
    ss, acts := Then(ss, acts, Step(0), Pair(InWait(Scan(2, true)), RUNNING, false, 0));
    ss, acts := Then(ss, acts, Step(0), Pair(InWait(Decide(true)), RUNNING, false, 0));
    ss, acts := Then(ss, acts, Step(0), Pair(InWait(Doze), RUNNING, false, 0));
  }

  /** A run in which wait does sleep through a kill: init, killed, is asleep with a child that may
      never exit. */
  lemma KillCanBeMissed() returns (ss: seq<State>, acts: seq<Action>)
    ensures Run(ss, acts) && |ss[|ss| - 1].procs| > 0
    ensures var x := ss[|ss| - 1].procs[INIT]; x.killed && x.state == SLEEPING && x.pc == InWait(Asleep)
  {
    hide Run;
    ss, acts := DozeRun();
    ss, acts := Then(ss, acts, Kill(0), Pair(InWait(Doze), RUNNING, true, 0));
    ss, acts := Then(ss, acts, Step(0), Pair(InWait(Drop), RUNNING, true, 0));
    ss, acts := Then(ss, acts, Step(0), Pair(InWait(Mark), RUNNING, true, -1));
    ss, acts := Then(ss, acts, Step(0), Pair(InWait(Switch), SLEEPING, true, -1));
    ss, acts := Then(ss, acts, Step(0), Pair(InWait(Parked), SLEEPING, true, -1));
    ss, acts := Then(ss, acts, Release(0), Pair(InWait(Asleep), SLEEPING, true, -1));
  }
}
