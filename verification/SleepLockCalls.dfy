/** acquiresleep and releasesleep (kernel/sleeplock.c) from call to return, over whole runs: what a call
    has done by the time it returns, and how many steps of its own it takes on the way. */
module SleepLockCalls {
  import opened SleepLock
  import opened Counting

  /** The states a run passes through. */
  ghost predicate Trace(ss: seq<State>, acts: seq<Action>) {
    && |ss| == |acts| + 1 && ss[0] == Initial(|ss[0].procs|)
    && forall k {:trigger acts[k]} :: 0 <= k < |acts| ==>
      |ss[k].procs| == |ss[k].plock| && Enabled(ss[k], acts[k]) && ss[k + 1] == Next(ss[k], acts[k])
  }

  lemma {:induction false} TraceInv(ss: seq<State>, acts: seq<Action>, n: nat)
    requires Trace(ss, acts) && n < |ss|
    ensures Inv(ss[n]) && |ss[n].procs| == |ss[0].procs|
  {
    hide Inv, Enabled, Next;
    if n == 0 {
      InitialInv(|ss[0].procs|);
    } else {
      TraceInv(ss, acts, n - 1);
      assert ss[n] == Next(ss[n - 1], acts[n - 1]);
      NextInv(ss[n - 1], acts[n - 1]);
      SizeStep(ss[n - 1], acts[n - 1]);
    }
  }

  /** `p` does not make the call `a` from action `m` up to action `n`. */
  ghost predicate NoCall(acts: seq<Action>, m: nat, n: nat, a: Action) {
    forall k {:trigger acts[k]} :: m <= k < n && k < |acts| ==> acts[k] != a
  }

  /** Only its own actions move a process, and kill does not. */
  lemma OthersKeepPc(s: State, a: Action, q: nat)
    requires Inv(s) && Enabled(s, a) && q < |s.procs| && (q != a.p || a.Kill?)
    ensures q < |Next(s, a).procs| && Next(s, a).procs[q].pc == s.procs[q].pc
  {
    hide ProcOk, LockOwnerOk, Rescued, HolderOk, AcquireStep;
    if a.Step? && !Releasing(s.procs[a.p].pc) { AcquireKeepsPc(s, a.p, q); }
  }

  lemma AcquireKeepsPc(s: State, p: nat, q: nat)
    requires p < |s.procs| == |s.plock| && q < |s.procs| && q != p
    ensures |AcquireStep(s, p).procs| == |s.procs| && AcquireStep(s, p).procs[q] == s.procs[q]
  {}

  // ---- releasesleep ----

  /** How many steps of its own a releasesleep still takes, with `n` processes, until it returns. */
  function ReleaseLeft(pc: Pc, n: nat): nat {
    match pc
    case Leave => 3 * n + 4
    case Clear => 3 * n + 3
    case Scan(i) => 3 * Beyond(i, n) + 2
    case Rouse(i) => 3 * Beyond(i + 1, n) + 4
    case Roused(i) => 3 * Beyond(i + 1, n) + 3
    case Done => 1
    case _ => 0
  }

  /** In releasesleep, at most `left` own steps from its return, or back from it. */
  ghost predicate NearOut(t: State, p: nat, left: int) {
    && p < |t.procs| && (Releasing(t.procs[p].pc) || t.procs[p].pc.Out?)
    && ReleaseLeft(t.procs[p].pc, |t.procs|) <= left
  }

  lemma ReleaseOwn(s: State, p: nat)
    requires Inv(s) && p < |s.procs| && Releasing(s.procs[p].pc)
    ensures NearOut(ReleaseStep(s, p), p, ReleaseLeft(s.procs[p].pc, |s.procs|) - 1)
    ensures |ReleaseStep(s, p).procs| == |s.procs|
  {
    hide LockOwnerOk, Rescued, HolderOk;
    assert ProcOk(s, p);
    match s.procs[p].pc
    case Scan(i) =>
    case Rouse(i) =>
    case _ =>
  }

  lemma ReleaseMoves(s: State, a: Action, p: nat, left: int)
    requires Inv(s) && Enabled(s, a) && NearOut(s, p, left) && a != Start(p)
    ensures NearOut(Next(s, a), p, left - Tally(a, Step(p)))
  {
    hide Inv, ReleaseLeft, ReleaseStep;
    SizeStep(s, a);
    if a == Step(p) {
      ReleaseOwn(s, p);
    } else if a.p != p || a.Kill? {
      OthersKeepPc(s, a, p);
    }
  }

  /** The lock is on record as nobody's. */
  predicate Given(s: State) { !s.locked && s.pid == 0 }

  ghost predicate GivenWithin(ss: seq<State>, m: nat, n: nat) {
    exists k {:trigger ss[k]} :: m < k <= n && k < |ss| && Given(ss[k])
  }

  /** Still to clear lk->locked. */
  predicate BeforeClear(pc: Pc) { pc.Leave? || pc.Clear? }

  lemma ClearsLock(s: State, a: Action, p: nat)
    requires Inv(s) && Enabled(s, a) && p < |s.procs| && BeforeClear(s.procs[p].pc)
    ensures p < |Next(s, a).procs| && (BeforeClear(Next(s, a).procs[p].pc) || Given(Next(s, a)))
  {
    hide ProcOk, LockOwnerOk, Rescued, HolderOk, AcquireStep;
    if a.p != p { OthersKeepPc(s, a, p); }
  }

  /** releasesleep gives the lock up and returns: whoever calls it is in it, or back, until it calls
      acquiresleep; it is back after at most three steps per process and four more; and the lock was
      free at some moment after the call and before it could look at the first sleeper. */
  lemma {:induction false} FinishReleases(ss: seq<State>, acts: seq<Action>, m: nat, n: nat)
    requires Trace(ss, acts) && m < n < |ss| && acts[m].Finish? && NoCall(acts, m, n, Start(acts[m].p))
    ensures var p := acts[m].p;
      && NearOut(ss[n], p, 3 * |ss[0].procs| + 4 - Count(acts[m + 1..n], Step(p)))
      && (BeforeClear(ss[n].procs[p].pc) || GivenWithin(ss, m, n))
    decreases n
  {
    hide Inv, NearOut, Enabled, Next, Count;
    var p := acts[m].p;
    TraceInv(ss, acts, n - 1);
    assert ss[n] == Next(ss[n - 1], acts[n - 1]);
    if n == m + 1 {
      CountNone(acts, m + 1, Step(p));
      FinishBegins(ss[m], p);
    } else {
      FinishReleases(ss, acts, m, n - 1);
      CountMore(acts, m + 1, n - 1, Step(p));
      assert acts[n - 1] != Start(p);
      ReleaseMoves(ss[n - 1], acts[n - 1], p, 3 * |ss[0].procs| + 4 - Count(acts[m + 1..n - 1], Step(p)));
      NearHere(ss[n - 1], p, 3 * |ss[0].procs| + 4 - Count(acts[m + 1..n - 1], Step(p)));
      if BeforeClear(ss[n - 1].procs[p].pc) {
        ClearsLock(ss[n - 1], acts[n - 1], p);
        assert Given(ss[n]) ==> GivenWithin(ss, m, n);
      } else {
        var k :| m < k <= n - 1 && k < |ss| && Given(ss[k]);
        assert GivenWithin(ss, m, n);
      }
    }
  }

  lemma NearHere(s: State, p: nat, left: int)
    requires NearOut(s, p, left)
    ensures p < |s.procs|
  {}

  lemma FinishBegins(s: State, p: nat)
    requires |s.procs| == |s.plock| && Enabled(s, Finish(p))
    ensures NearOut(Next(s, Finish(p)), p, 3 * |s.procs| + 4) && BeforeClear(Next(s, Finish(p)).procs[p].pc)
  {}

  // ---- acquiresleep ----

  /** In acquiresleep or the sleep it calls. */
  predicate Acquiring(pc: Pc) { !Releasing(pc) && !pc.Out? && !pc.Inside? }

  lemma AcquireMoves(s: State, a: Action, p: nat)
    requires Inv(s) && Enabled(s, a) && p < |s.procs| && a != Finish(p)
    requires Acquiring(s.procs[p].pc) || s.procs[p].pc.Inside?
    ensures p < |Next(s, a).procs|
    ensures var pc := Next(s, a).procs[p].pc; Acquiring(pc) || pc.Inside?
  {
    hide ProcOk, LockOwnerOk, Rescued, HolderOk, ReleaseStep;
    if a.p != p { OthersKeepPc(s, a, p); }
  }

  /** acquiresleep returns only with the lock: from the call until it calls releasesleep, a process is
      in acquiresleep, or back from it and the one holder on record. */
  lemma {:induction false} StartAcquires(ss: seq<State>, acts: seq<Action>, m: nat, n: nat)
    requires Trace(ss, acts) && m < n < |ss| && acts[m].Start? && NoCall(acts, m, n, Finish(acts[m].p))
    ensures var p := acts[m].p;
      && p < |ss[n].procs| && (Acquiring(ss[n].procs[p].pc) || ss[n].procs[p].pc.Inside?)
      && (ss[n].procs[p].pc.Inside? ==> ss[n].locked && ss[n].pid == p + 1)
    decreases n
  {
    hide LockOwnerOk, Rescued, HolderOk, Enabled, Next, Acquiring, Owns;
    var p := acts[m].p;
    TraceInv(ss, acts, n - 1);
    TraceInv(ss, acts, n);
    assert ss[n] == Next(ss[n - 1], acts[n - 1]);
    if n == m + 1 {
      StartBegins(ss[m], p);
    } else {
      StartAcquires(ss, acts, m, n - 1);
      assert acts[n - 1] != Finish(p);
      AcquireMoves(ss[n - 1], acts[n - 1], p);
    }
    assert ProcOk(ss[n], p);
  }

  lemma StartBegins(s: State, p: nat)
    requires |s.procs| == |s.plock| && Enabled(s, Start(p))
    ensures p < |Next(s, Start(p)).procs| && Acquiring(Next(s, Start(p)).procs[p].pc)
  {}

  /** Nobody else touches the lock while `p` holds its spin lock. */
  lemma SpinGuards(s: State, a: Action, p: nat)
    requires Inv(s) && Enabled(s, a) && p < |s.procs| && s.lk == By(p) && a != Step(p)
    ensures var t := Next(s, a); t.lk == s.lk && t.locked == s.locked && t.pid == s.pid
  {
    hide LockOwnerOk, Rescued, HolderOk;
    assert ProcOk(s, a.p);
  }

  /** Where a process is `k` of its own steps after it got the spin lock, if the lock was free. */
  ghost predicate Taking(t: State, p: nat, k: nat) {
    p < |t.procs| == |t.plock| &&
    match t.procs[p].pc
    case Test => k == 0 && !t.locked && t.lk == By(p)
    case Took => k == 1
    case Inside => k == 2
    case _ => false
  }

  lemma TakingMoves(s: State, a: Action, p: nat, k: nat)
    requires Inv(s) && Enabled(s, a) && Taking(s, p, k) && a != Finish(p)
    ensures Taking(Next(s, a), p, k + Tally(a, Step(p)))
  {
    hide ProcOk, LockOwnerOk, Rescued, HolderOk, ReleaseStep;
    SizeStep(s, a);
    if a != Step(p) {
      if a.p != p { OthersKeepPc(s, a, p); }
      if s.procs[p].pc.Test? { SpinGuards(s, a, p); }
    }
  }

  /** Getting the spin lock while the sleep lock is free is enough: two steps later, whatever others
      do, the process is back from acquiresleep with the lock in its name. */
  lemma {:induction false} FreeLockTaken(ss: seq<State>, acts: seq<Action>, m: nat, n: nat, p: nat)
    requires Trace(ss, acts) && m < n < |ss| && acts[m] == Step(p) && NoCall(acts, m, n, Finish(p))
    requires p < |ss[m].procs| && (ss[m].procs[p].pc.Enter? || ss[m].procs[p].pc.Again?) && !ss[m].locked
    ensures Taking(ss[n], p, Count(acts[m + 1..n], Step(p)))
    ensures ss[n].procs[p].pc.Inside? ==> ss[n].locked && ss[n].pid == p + 1
    decreases n
  {
    hide LockOwnerOk, Rescued, HolderOk, Enabled, Next, Taking, Count, Owns;
    TraceInv(ss, acts, n - 1);
    TraceInv(ss, acts, n);
    assert ss[n] == Next(ss[n - 1], acts[n - 1]);
    if n == m + 1 {
      CountNone(acts, m + 1, Step(p));
      TakingBegins(ss[m], p);
    } else {
      FreeLockTaken(ss, acts, m, n - 1, p);
      CountMore(acts, m + 1, n - 1, Step(p));
      assert acts[n - 1] != Finish(p);
      TakingMoves(ss[n - 1], acts[n - 1], p, Count(acts[m + 1..n - 1], Step(p)));
    }
    assert Taking(ss[n], p, Count(acts[m + 1..n], Step(p))) ==> p < |ss[n].procs| by { TakingIn(ss[n], p); }
    assert p < |ss[n].procs| ==> ProcOk(ss[n], p);
  }

  lemma TakingIn(s: State, p: nat)
    ensures forall k {:trigger Taking(s, p, k)} :: Taking(s, p, k) ==> p < |s.procs|
  {}

  lemma TakingBegins(s: State, p: nat)
    requires p < |s.procs| == |s.plock| && Enabled(s, Step(p)) && !s.locked
    requires s.procs[p].pc.Enter? || s.procs[p].pc.Again?
    ensures Taking(Next(s, Step(p)), p, 0)
  {}

  // ---- sleeping and waking ----

  /** Where a process is `k` of its own steps after it got the spin lock, if the lock was taken. */
  ghost predicate Dozing(t: State, p: nat, k: nat) {
    p < |t.procs| == |t.plock| &&
    match t.procs[p].pc
    case Test => k == 0 && t.locked && t.lk == By(p)
    case Lock => k == 1
    case Drop => k == 2
    case Mark => k == 3
    case Switch => k == 4
    case Parked => k == 5 && t.procs[p].state == SLEEPING && t.procs[p].onChan
    case _ => false
  }

  lemma DozingMoves(s: State, a: Action, p: nat, k: nat)
    requires Inv(s) && Enabled(s, a) && Dozing(s, p, k) && a != Park(p)
    ensures Dozing(Next(s, a), p, k + Tally(a, Step(p)))
  {
    hide LockOwnerOk, Rescued, HolderOk, ReleaseStep;
    SizeStep(s, a);
    NextInv(s, a);
    assert ProcOk(s, p) && ProcOk(Next(s, a), p);
    if a != Step(p) {
      if a.p != p || a.Kill? { OthersKeepPc(s, a, p); }
      if s.procs[p].pc.Test? { SpinGuards(s, a, p); }
    }
  }

  /** Getting the spin lock while the sleep lock is taken: five steps later the process is asleep on
      it, off the CPU; it does not spin. */
  lemma {:induction false} TakenLockSleeps(ss: seq<State>, acts: seq<Action>, m: nat, n: nat, p: nat)
    requires Trace(ss, acts) && m < n < |ss| && acts[m] == Step(p) && NoCall(acts, m, n, Park(p))
    requires p < |ss[m].procs| && (ss[m].procs[p].pc.Enter? || ss[m].procs[p].pc.Again?) && ss[m].locked
    ensures Dozing(ss[n], p, Count(acts[m + 1..n], Step(p)))
    decreases n
  {
    hide Inv, Enabled, Next, Dozing, Count;
    TraceInv(ss, acts, n - 1);
    assert ss[n] == Next(ss[n - 1], acts[n - 1]);
    if n == m + 1 {
      CountNone(acts, m + 1, Step(p));
      DozingBegins(ss[m], p);
    } else {
      TakenLockSleeps(ss, acts, m, n - 1, p);
      CountMore(acts, m + 1, n - 1, Step(p));
      assert acts[n - 1] != Park(p);
      DozingMoves(ss[n - 1], acts[n - 1], p, Count(acts[m + 1..n - 1], Step(p)));
    }
  }

  lemma DozingBegins(s: State, p: nat)
    requires p < |s.procs| == |s.plock| && Enabled(s, Step(p)) && s.locked
    requires s.procs[p].pc.Enter? || s.procs[p].pc.Again?
    ensures Dozing(Next(s, Step(p)), p, 0)
  {}

  /** Where a process is `k` of its own steps after a scheduler switched to it. */
  ghost predicate Rising(t: State, p: nat, k: nat) {
    p < |t.procs| == |t.plock| &&
    match t.procs[p].pc
    case Wake => k == 0
    case Unlock => k == 1
    case Again => k == 2
    case Test => k == 3 && t.lk == By(p)
    case _ => k > 3
  }

  lemma RisingMoves(s: State, a: Action, p: nat, k: nat)
    requires Inv(s) && Enabled(s, a) && Rising(s, p, k) && k <= 3 && !s.procs[p].pc.Inside?
    ensures Rising(Next(s, a), p, k + Tally(a, Step(p)))
  {
    hide ProcOk, LockOwnerOk, Rescued, HolderOk, ReleaseStep;
    SizeStep(s, a);
    if a != Step(p) {
      if a.p != p || a.Kill? { OthersKeepPc(s, a, p); }
      if s.procs[p].pc.Test? { SpinGuards(s, a, p); }
    }
  }

  /** A sleeper that is switched to looks at the lock again: three steps later it is about to test
      lk->locked, under the spin lock. */
  lemma {:induction false} WokenTestsAgain(ss: seq<State>, acts: seq<Action>, m: nat, n: nat, p: nat)
    requires Trace(ss, acts) && m < n < |ss| && acts[m] == Dispatch(p) && Count(acts[m + 1..n], Step(p)) <= 3
    ensures Rising(ss[n], p, Count(acts[m + 1..n], Step(p)))
    decreases n
  {
    hide Inv, Enabled, Next, Rising, Count;
    TraceInv(ss, acts, n - 1);
    assert ss[n] == Next(ss[n - 1], acts[n - 1]);
    if n == m + 1 {
      CountNone(acts, m + 1, Step(p));
      RisingBegins(ss[m], p);
    } else {
      CountMore(acts, m + 1, n - 1, Step(p));
      WokenTestsAgain(ss, acts, m, n - 1, p);
      RisingIn(ss[n - 1], p, Count(acts[m + 1..n - 1], Step(p)));
      RisingMoves(ss[n - 1], acts[n - 1], p, Count(acts[m + 1..n - 1], Step(p)));
    }
  }

  lemma RisingIn(s: State, p: nat, k: nat)
    requires Rising(s, p, k) && k <= 3
    ensures p < |s.procs| && !s.procs[p].pc.Inside?
  {}

  lemma RisingBegins(s: State, p: nat)
    requires |s.procs| == |s.plock| && Enabled(s, Dispatch(p))
    ensures Rising(Next(s, Dispatch(p)), p, 0)
  {}
}
