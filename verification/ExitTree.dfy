/** The process tree over whole runs of fork, exit and wait (kernel/proc.c): parents are older
    than their children, a sleeper in wait has a child that can still wake it, and every exit
    status is collected at most once. */
module ExitTree {
  import opened ExitWait

  /** Neither the parent nor the pid of slot `j` changed. */
  ghost predicate SameLink(s: State, t: State, j: nat)
    requires j < |s.procs| == |t.procs|
  {
    t.procs[j].parent == s.procs[j].parent && t.procs[j].pid == s.procs[j].pid
  }

  /** How one step may change the link of slot `j`: a slot is freed, filled, adopted by the
      process that steps, or passed on to init. */
  ghost predicate LinkStep(s: State, t: State, p: nat, j: nat)
    requires j < |s.procs| == |t.procs| && p < |s.procs|
  {
    || SameLink(s, t, j)
    || (s.procs[j].parent in {-1, p as int} && !t.procs[p].pc.InWait? && !s.procs[j].pc.InWait? && (
          || t.procs[j] == FreeProc
          || (t.procs[j].parent == -1 && t.procs[j].pid == s.nextpid && t.procs[j].pc.Made?)
          || (t.procs[j].parent == p && t.procs[j].pid == s.procs[j].pid && ForksInto(s.procs[p], j))))
    || (s.procs[j].parent == p && !t.procs[p].pc.InWait?
        && t.procs[j].parent == INIT && t.procs[j].pid == s.procs[j].pid && j != INIT && !t.procs[j].pc.None?)
  }

  lemma CallLinks(s: State, a: Action, j: nat)
    requires Inv(s) && Enabled(s, a) && j < |s.procs| && !a.Step?
    ensures |Next(s, a).procs| == |s.procs| && LinkStep(s, Next(s, a), a.p, j)
  {
    hide ChildOk, DyingOk, ScanOk, PidOk, PidsDiffer, BooksOk, InitOk, ExitStep, WaitStep, ForkStep;
    Knows(s, j);
    Knows(s, a.p);
  }

  lemma ExitLinks(s: State, p: nat, j: nat)
    requires Inv(s) && p < |s.procs| && s.procs[p].pc.Exiting? && j < |s.procs|
    ensures |ExitNext(s, p).procs| == |s.procs| && LinkStep(s, ExitNext(s, p), p, j)
  {
    hide ProcOk, PidsDiffer, BooksOk;
    if AtChild(s, p) && j == s.procs[p].pc.e.i {
      NotSelf(s, p);
      NotSelf(s, j);
      assert !s.procs[j].pc.None? by { ChildIsNot(s, j); }
    } else {
      assert SameLink(s, ExitNext(s, p), j);
    }
  }

  lemma ChildIsNot(s: State, j: nat)
    requires Inv(s) && j < |s.procs| && s.procs[j].parent != -1
    ensures !s.procs[j].pc.None?
  {
    Knows(s, j);
  }

  lemma WaitLinks(s: State, p: nat, j: nat)
    requires Inv(s) && p < |s.procs| && s.procs[p].pc.InWait? && j < |s.procs| && WaitReady(s, p, s.procs[p].pc.w)
    ensures |WaitNext(s, p).procs| == |s.procs| && LinkStep(s, WaitNext(s, p), p, j)
  {
    hide ChildOk, DyingOk, ScanOk, PidOk, PidsDiffer, BooksOk, ParentOk;
    Knows(s, j);
    Knows(s, p);
  }

  lemma StepLinks(s: State, a: Action, j: nat)
    requires Inv(s) && Enabled(s, a) && j < |s.procs|
    ensures a.p < |s.procs| == |Next(s, a).procs| && LinkStep(s, Next(s, a), a.p, j)
  {
    hide ProcOk, PidsDiffer, BooksOk, InitOk, LinkStep;
    if !a.Step? {
      CallLinks(s, a, j);
    } else if s.procs[a.p].pc.Exiting? {
      ExitLinks(s, a.p, j);
    } else if s.procs[a.p].pc.InWait? {
      WaitLinks(s, a.p, j);
    } else {
      ForkLinks(s, a.p, j);
    }
  }

  lemma ForkLinks(s: State, p: nat, j: nat)
    requires Inv(s) && p < |s.procs| && (s.procs[p].pc.Adopt? || s.procs[p].pc.Launch?) && j < |s.procs|
    ensures |ForkStep(s, p).procs| == |s.procs| && LinkStep(s, ForkStep(s, p), p, j)
  {
    hide ProcOk, PidsDiffer, BooksOk, InitOk;
    ForkSlot(s, p);
  }

  /** A parent is older than its children, and a fork than the child it makes. */
  ghost predicate Older(s: State, j: nat)
    requires j < |s.procs|
  {
    var x := s.procs[j];
    && (0 <= x.parent < |s.procs| ==> s.procs[x.parent].pid < x.pid)
    && ((x.pc.Adopt? || x.pc.Launch?) && x.pc.c < |s.procs| ==> x.pid < s.procs[x.pc.c].pid)
  }

  /** wait has seen a child and not yet collected one. */
  predicate SawKid(pc: Pc) {
    && pc.InWait?
    && ((pc.w.Scan? && pc.w.kids) || (pc.w.Decide? && pc.w.kids) || pc.w.Doze? || pc.w.Drop? || pc.w.Mark?
      || pc.w.Switch? || pc.w.Parked? || pc.w.Asleep?)
  }

  ghost predicate HasKid(s: State, p: nat) {
    exists j :: 0 <= j < |s.procs| && s.procs[j].parent == p
  }

  ghost predicate Tree(s: State) {
    && INIT < |s.procs| && s.procs[INIT].pid == 1
    && (forall j {:trigger Older(s, j)} :: 0 <= j < |s.procs| ==> Older(s, j))
    && (forall p {:trigger HasKid(s, p)} :: 0 <= p < |s.procs| && SawKid(s.procs[p].pc) ==> HasKid(s, p))
  }

  /** How one step by `a.p` may change the program counter of `q`. */
  ghost predicate PcStep(s: State, t: State, a: Action, q: nat)
    requires q < |s.procs| == |t.procs|
  {
    var y := t.procs[q].pc;
    && (SawKid(y) ==> SawKid(s.procs[q].pc) || (q == a.p && HasKid(s, q)))
    && (q != a.p ==> y == s.procs[q].pc || y.None? || y.Made? || y.Ready?)
    && (y.Adopt? || y.Launch? ==> ForksInto(s.procs[q], y.c) || (q == a.p && a == Fork(q, y.c)))
  }

  lemma CallPc(s: State, a: Action, q: nat)
    requires Enabled(s, a) && q < |s.procs| && !a.Step?
    ensures |CallStep(s, a).procs| == |s.procs| && PcStep(s, CallStep(s, a), a, q)
  {
    hide HasKid;
  }

  lemma ExitPcStep(s: State, p: nat, q: nat)
    requires q < |s.procs| && p < |s.procs| && s.procs[p].pc.Exiting?
    ensures |ExitNext(s, p).procs| == |s.procs| && PcStep(s, ExitNext(s, p), Step(p), q)
  {
    hide HasKid, SawKid;
    assert !SawKid(s.procs[p].pc) && !SawKid(ExitNext(s, p).procs[p].pc) by {
      NeverSaw(s.procs[p].pc);
      NeverSaw(ExitNext(s, p).procs[p].pc);
    }
    assert q != p ==> ExitNext(s, p).procs[q].pc == s.procs[q].pc;
  }

  lemma NeverSaw(pc: Pc)
    ensures pc.Exiting? ==> !SawKid(pc)
  {
  }

  lemma WaitPcStep(s: State, a: Action, q: nat)
    requires Enabled(s, a) && q < |s.procs| && a.Step? && s.procs[a.p].pc.InWait?
    ensures |WaitNext(s, a.p).procs| == |s.procs| && PcStep(s, WaitNext(s, a.p), a, q)
  {
    var pc := s.procs[a.p].pc;
    if pc.w.Scan? && pc.w.i < |s.procs| && s.procs[pc.w.i].parent == a.p {
      assert HasKid(s, a.p);
    }
  }

  lemma StepPc(s: State, a: Action, q: nat)
    requires Enabled(s, a) && q < |s.procs|
    ensures |Next(s, a).procs| == |s.procs| && PcStep(s, Next(s, a), a, q)
  {
    hide HasKid;
    if !a.Step? {
      CallPc(s, a, q);
    } else if s.procs[a.p].pc.Exiting? {
      ExitPcStep(s, a.p, q);
    } else if s.procs[a.p].pc.InWait? {
      WaitPcStep(s, a, q);
    }
  }

  lemma ForkPid(s: State, p: nat, c: nat)
    requires Inv(s) && Enabled(s, Fork(p, c))
    ensures Next(s, Fork(p, c)).procs[c].pid == s.nextpid
    ensures Next(s, Fork(p, c)).procs[p].pid == s.procs[p].pid < s.nextpid
  {
    hide PidsDiffer, Waiting, Passed, MayHave;
    Knows(s, p);
    Knows(s, c);
  }

  lemma ParentOlder(s: State, a: Action, j: nat)
    requires Inv(s) && Tree(s) && Enabled(s, a) && Inv(Next(s, a)) && j < |s.procs|
    ensures var t := Next(s, a);
      |t.procs| == |s.procs| && (0 <= t.procs[j].parent < |t.procs| ==> t.procs[t.procs[j].parent].pid < t.procs[j].pid)
  {
    hide Next, Enabled, ChildOk, DyingOk, ScanOk, Passed, Waiting, HasKid, BooksOk;
    var t := Next(s, a);
    StepLinks(s, a, j);
    Knows(t, j);
    assert Older(s, j) && Older(s, a.p) && PidsDiffer(s, j, INIT);
    var q := t.procs[j].parent;
    if 0 <= q < |s.procs| {
      StepLinks(s, a, q);
      Knows(s, j);
    }
  }

  lemma MakerOlder(s: State, a: Action, j: nat)
    requires Inv(s) && Tree(s) && Enabled(s, a) && Inv(Next(s, a)) && j < |s.procs|
    ensures var t := Next(s, a); |t.procs| == |s.procs| && (t.procs[j].pc.Adopt? || t.procs[j].pc.Launch? ==>
        t.procs[j].pc.c < |t.procs| && t.procs[j].pid < t.procs[t.procs[j].pc.c].pid)
  {
    hide Next, Enabled, ChildOk, DyingOk, ScanOk, Passed, Waiting, HasKid, BooksOk, MayHave;
    var t := Next(s, a);
    StepPc(s, a, j);
    var y := t.procs[j].pc;
    if y.Adopt? || y.Launch? {
      Knows(t, j);
      Knows(s, j);
      StepLinks(s, a, j);
      StepLinks(s, a, y.c);
      assert Older(s, j);
      if a.Fork? && a == Fork(j, y.c) { ForkPid(s, j, y.c); }
    }
  }

  lemma InitPid(s: State, a: Action)
    requires Inv(s) && Tree(s) && Enabled(s, a) && Inv(Next(s, a))
    ensures INIT < |Next(s, a).procs| && Next(s, a).procs[INIT].pid == 1
  {
    hide Next, Enabled, ProcOk, PidsDiffer, BooksOk, HasKid, Older;
    StepLinks(s, a, INIT);
  }

  lemma KidStep(s: State, a: Action, p: nat)
    requires Inv(s) && Tree(s) && Enabled(s, a) && p < |s.procs|
    ensures |Next(s, a).procs| == |s.procs| && (SawKid(Next(s, a).procs[p].pc) ==> HasKid(Next(s, a), p))
  {
    hide Next, Enabled, ProcOk, PidsDiffer, BooksOk, Older, InitOk;
    var t := Next(s, a);
    StepPc(s, a, p);
    if SawKid(t.procs[p].pc) {
      assert HasKid(s, p);
      var j :| 0 <= j < |s.procs| && s.procs[j].parent == p;
      StepLinks(s, a, j);
      assert t.procs[j].parent == p;
    }
  }

  /** Every step keeps the tree. */
  lemma NextTree(s: State, a: Action)
    requires Inv(s) && Tree(s) && Enabled(s, a)
    ensures Inv(Next(s, a)) && Tree(Next(s, a))
  {
    hide Next, Enabled, Inv, HasKid, SawKid;
    NextInv(s, a);
    var t := Next(s, a);
    InitPid(s, a);
    StepPc(s, a, INIT);
    forall j | 0 <= j < |t.procs| ensures Older(t, j) {
      ParentOlder(s, a, j);
      MakerOlder(s, a, j);
    }
    forall p | 0 <= p < |t.procs| && SawKid(t.procs[p].pc) ensures HasKid(t, p) {
      KidStep(s, a, p);
    }
  }

  lemma {:induction false} RunTree(ss: seq<State>, acts: seq<Action>, n: nat)
    requires Run(ss, acts) && n < |ss|
    ensures Inv(ss[n]) && Tree(ss[n])
  {
    hide Inv, Enabled, Next;
    if n == 0 {
      InitialInv(ss[0]);
    } else {
      RunTree(ss, acts, n - 1);
      NextTree(ss[n - 1], acts[n - 1]);
    }
  }

  /** A line of descent: each slot is a child of the one before. */
  ghost predicate Descent(s: State, path: seq<nat>) {
    && path != [] && (forall k :: 0 <= k < |path| ==> path[k] < |s.procs|)
    && forall k {:trigger path[k]} :: 0 < k < |path| ==> s.procs[path[k]].parent == path[k - 1]
  }

  /** Going down from a sleeper leads to a process that does not sleep in wait. */
  lemma {:induction false} AwakeDescendant(s: State, p: nat) returns (path: seq<nat>)
    requires Inv(s) && Tree(s) && !WakingInit(s) && p < |s.procs| && !s.procs[p].pc.None?
    requires !IsZombie(s.procs[p].pc)
    ensures Descent(s, path) && path[0] == p && path[|path| - 1] < |s.procs|
    ensures var q := s.procs[path[|path| - 1]]; !Waiting(q) && q.state !in {UNUSED, ZOMBIE}
    decreases if s.procs[p].pid < s.nextpid then s.nextpid - s.procs[p].pid else 0
  {
    hide PidsDiffer, BooksOk, InitOk, DyingOk, ScanOk, Passed, MayHave;
    Knows(s, p);
    if !Waiting(s.procs[p]) {
      path := [p];
    } else {
      assert HasKid(s, p);
      var j :| 0 <= j < |s.procs| && s.procs[j].parent == p;
      Knows(s, j);
      assert Older(s, j);
      var rest := AwakeDescendant(s, j);
      path := [p] + rest;
    }
  }

  /** No sleeper in wait is left without a wakeup to come: with wait_lock free, some descendant
      of it is alive and not asleep in wait. */
  lemma SleepersHaveLiveDescendants(ss: seq<State>, acts: seq<Action>, n: nat, p: nat) returns (path: seq<nat>)
    requires Run(ss, acts) && n < |ss| && ss[n].wl == -1 && p < |ss[n].procs| && Waiting(ss[n].procs[p])
    ensures |path| > 1 && path[0] == p && Descent(ss[n], path) && path[|path| - 1] < |ss[n].procs|
    ensures var q := ss[n].procs[path[|path| - 1]]; !Waiting(q) && q.state !in {UNUSED, ZOMBIE}
  {
    RunTree(ss, acts, n);
    path := AwakeDescendant(ss[n], p);
  }

  // ---- the books ----

  /** What a step writes in the books: an exit of a process that had not exited, or the
      collection, once, of a dead child with the status its exit recorded. */
  ghost predicate BookStep(s: State, t: State, p: nat)
    requires p < |s.procs| == |t.procs|
  {
    || (t.exits == s.exits && t.reaped == s.reaped)
    || (&& t.reaped == s.reaped && s.procs[p].pc.Exiting? && s.procs[p].pid !in s.exits
        && t.exits == s.exits[s.procs[p].pid := s.procs[p].pc.st] && t.procs[p].state == ZOMBIE)
    || (t.exits == s.exits && exists i :: 0 <= i < |s.procs| && Collected(s, t, p, i))
  }

  ghost predicate Collected(s: State, t: State, p: nat, i: nat)
    requires i < |s.procs| == |t.procs|
  {
    var x := s.procs[i];
    && x.parent == p && x.pc.Exiting? && x.pc.e.Dead? && t.procs[i] == FreeProc
    && p < |t.procs| && t.procs[p].pc == User
    && x.pid !in s.reaped && x.pid in s.exits && t.reaped == s.reaped[x.pid := s.exits[x.pid]]
  }

  lemma ExitBook(s: State, p: nat)
    requires Inv(s) && p < |s.procs| && s.procs[p].pc.Exiting?
    ensures |ExitNext(s, p).procs| == |s.procs| && BookStep(s, ExitNext(s, p), p)
  {
    hide PidsDiffer, BooksOk, InitOk, ParentOk, ChildOk, DyingOk, ScanOk, Passed, MayHave;
    Knows(s, p);
  }

  lemma WaitBook(s: State, p: nat)
    requires Inv(s) && p < |s.procs| && s.procs[p].pc.InWait? && WaitReady(s, p, s.procs[p].pc.w)
    ensures |WaitNext(s, p).procs| == |s.procs| && BookStep(s, WaitNext(s, p), p)
  {
    hide ProcOk, PidsDiffer, BooksOk, InitOk;
    var w := s.procs[p].pc.w;
    if w.Scan? && ZombieChild(s, p, w.i) {
      ZombieIsDead(s, w.i);
      NotSelf(s, w.i);
      assert Collected(s, WaitNext(s, p), p, w.i);
    }
  }

  lemma StepBook(s: State, a: Action)
    requires Inv(s) && Enabled(s, a)
    ensures a.p < |s.procs| == |Next(s, a).procs| && BookStep(s, Next(s, a), a.p)
  {
    hide ProcOk, PidsDiffer, BooksOk, InitOk;
    if !a.Step? {
    } else if s.procs[a.p].pc.Exiting? {
      ExitBook(s, a.p);
    } else if s.procs[a.p].pc.InWait? {
      WaitBook(s, a.p);
    }
  }

  /** In a run every entry in the books is made once: an exit status is never overwritten, and
      wait collects a status at most once, from a child that has left its stack for good. */
  lemma CollectedOnce(ss: seq<State>, acts: seq<Action>, n: nat)
    requires Run(ss, acts) && n < |acts|
    ensures acts[n].p < |ss[n].procs| == |ss[n + 1].procs| && BookStep(ss[n], ss[n + 1], acts[n].p)
  {
    hide Inv, Enabled, Next;
    RunInv(ss, acts, n);
    StepBook(ss[n], acts[n]);
  }

  lemma {:induction false} BooksStay(ss: seq<State>, acts: seq<Action>, m: nat, n: nat, pid: nat)
    requires Run(ss, acts) && m <= n < |ss|
    ensures pid in ss[m].exits ==> pid in ss[n].exits && ss[n].exits[pid] == ss[m].exits[pid]
    ensures pid in ss[m].reaped ==>
      && pid in ss[n].reaped && ss[n].reaped[pid] == ss[m].reaped[pid]
      && pid in ss[m].exits && ss[m].exits[pid] == ss[m].reaped[pid]
    decreases n
  {
    hide Enabled, Next, ProcOk, PidsDiffer;
    RunInv(ss, acts, m);
    if m < n {
      BooksStay(ss, acts, m, n - 1, pid);
      CollectedOnce(ss, acts, n - 1);
    }
  }

  // ---- progress ----

  /** Whoever holds wait_lock can go on, or waits for the lock of a process that can go on
      without wait_lock. */
  lemma WaitLockMoves(ss: seq<State>, acts: seq<Action>, n: nat) returns (a: Action)
    requires Run(ss, acts) && n < |ss| && ss[n].wl != -1
    ensures Enabled(ss[n], a) && (a.Step? || a.Release?)
    ensures a.p != ss[n].wl ==> LockTaken(ss[n].procs[a.p].pc)
  {
    RunInv(ss, acts, n);
    a := HolderMoves(ss[n]);
  }

  lemma HolderMoves(s: State) returns (a: Action)
    requires Inv(s) && s.wl != -1
    ensures Enabled(s, a) && (a.Step? || a.Release?)
    ensures a.p != s.wl ==> LockTaken(s.procs[a.p].pc)
  {
    hide PidsDiffer, BooksOk, ChildOk, DyingOk, ScanOk, Passed, MayHave;
    var p: nat := s.wl;
    Knows(s, p);
    a := Step(p);
    if !Enabled(s, a) {
      var pc := s.procs[p].pc;
      var q: nat := if pc.InWait? then pc.w.i else if pc.e.WakeInit? then INIT else s.procs[p].parent;
      Knows(s, q);
      a := if s.procs[q].pc == InWait(Parked) || (s.procs[q].pc.Exiting? && s.procs[q].pc.e.Gone?) then Release(q)
        else Step(q);
    }
  }
}
