/** fork, exit, wait and kill from call to return, over whole runs: each is followed from the action
    that starts it, through any interleaving, to what it leaves behind. */
module ProcCalls {
  import opened ExitWait
  import opened ExitTree
  import opened Counting

  lemma {:induction false} Sizes(ss: seq<State>, acts: seq<Action>, n: nat)
    requires Run(ss, acts) && n < |ss|
    ensures |ss[n].procs| == |ss[0].procs|
  {
    hide Inv, Enabled, Next, Initial;
    if n > 0 {
      Sizes(ss, acts, n - 1);
      RunInv(ss, acts, n - 1);
      StepBook(ss[n - 1], acts[n - 1]);
    }
  }

  // ---- exit ----

  /** exit was called with status `st` by the process with pid `pid`, then in slot `p`. */
  ghost predicate ExitAt(ss: seq<State>, acts: seq<Action>, m: nat, p: nat, pid: nat, st: int) {
    m < |acts| && m < |ss| && acts[m] == Exit(p, st) && p < |ss[m].procs| && ss[m].procs[p].pid == pid
  }

  /** The process in slot `q` is in exit because it was, or because it has just called it. */
  ghost predicate StaysInExit(s: State, t: State, a: Action, q: nat)
    requires q < |s.procs| == |t.procs|
  {
    var x, y := s.procs[q], t.procs[q];
    y.pc.Exiting? ==> y.pid == x.pid && ((x.pc.Exiting? && x.pc.st == y.pc.st) || a == Exit(q, y.pc.st))
  }

  lemma CallExiting(s: State, a: Action, q: nat)
    requires Enabled(s, a) && q < |s.procs| && !a.Step?
    ensures |CallStep(s, a).procs| == |s.procs| && StaysInExit(s, CallStep(s, a), a, q)
  {
  }

  lemma ExitExiting(s: State, p: nat, q: nat)
    requires p < |s.procs| && s.procs[p].pc.Exiting? && q < |s.procs|
    ensures |ExitNext(s, p).procs| == |s.procs| && StaysInExit(s, ExitNext(s, p), Step(p), q)
  {
    match s.procs[p].pc.e
    case Reparent(i) =>
    case WakeInit(i) =>
    case WakeParent =>
    case _ =>
  }

  lemma WaitExiting(s: State, p: nat, q: nat)
    requires p < |s.procs| && s.procs[p].pc.InWait? && q < |s.procs|
    ensures |WaitNext(s, p).procs| == |s.procs| && StaysInExit(s, WaitNext(s, p), Step(p), q)
  {
    match s.procs[p].pc.w
    case Scan(i, kids) =>
    case Decide(kids) =>
    case _ =>
  }

  lemma StepExiting(s: State, a: Action, q: nat)
    requires Enabled(s, a) && q < |s.procs|
    ensures |Next(s, a).procs| == |s.procs| && StaysInExit(s, Next(s, a), a, q)
  {
    hide CallStep, ExitStep, WaitStep, StaysInExit;
    if !a.Step? {
      CallExiting(s, a, q);
    } else if s.procs[a.p].pc.Exiting? {
      ExitExiting(s, a.p, q);
    } else if s.procs[a.p].pc.InWait? {
      WaitExiting(s, a.p, q);
    } else {
      ForkExiting(s, a.p, q);
    }
  }

  lemma ForkExiting(s: State, p: nat, q: nat)
    requires p < |s.procs| && !s.procs[p].pc.Exiting? && q < |s.procs|
    ensures |ForkStep(s, p).procs| == |s.procs| && StaysInExit(s, ForkStep(s, p), Step(p), q)
  {
  }

  /** Whoever is in exit called it, with the status it is going to leave. */
  lemma {:induction false} ExitingCalled(ss: seq<State>, acts: seq<Action>, n: nat, p: nat) returns (m: nat)
    requires Run(ss, acts) && n < |ss| && p < |ss[n].procs| && ss[n].procs[p].pc.Exiting?
    ensures m < n && ExitAt(ss, acts, m, p, ss[n].procs[p].pid, ss[n].procs[p].pc.st)
    decreases n
  {
    hide Inv, Enabled, Next;
    assert n > 0;
    Sizes(ss, acts, n);
    Sizes(ss, acts, n - 1);
    StepExiting(ss[n - 1], acts[n - 1], p);
    if ss[n - 1].procs[p].pc.Exiting? && ss[n - 1].procs[p].pc.st == ss[n].procs[p].pc.st {
      m := ExitingCalled(ss, acts, n - 1, p);
    } else {
      m := n - 1;
    }
  }

  /** Every status in the books is the one its process passed to exit. */
  lemma {:induction false} ExitStatus(ss: seq<State>, acts: seq<Action>, n: nat, pid: nat) returns (p: nat, m: nat)
    requires Run(ss, acts) && n < |ss| && pid in ss[n].exits
    ensures m < n && ExitAt(ss, acts, m, p, pid, ss[n].exits[pid])
    decreases n
  {
    hide Inv, Enabled, Next;
    assert n > 0;
    CollectedOnce(ss, acts, n - 1);
    if pid in ss[n - 1].exits {
      BooksStay(ss, acts, n - 1, n, pid);
      p, m := ExitStatus(ss, acts, n - 1, pid);
    } else {
      p := acts[n - 1].p;
      m := ExitingCalled(ss, acts, n - 1, p);
    }
  }

  /** What wait hands to a parent is the status its child passed to exit. */
  lemma WaitStatus(ss: seq<State>, acts: seq<Action>, n: nat, pid: nat) returns (p: nat, m: nat)
    requires Run(ss, acts) && n < |ss| && pid in ss[n].reaped
    ensures m < n && ExitAt(ss, acts, m, p, pid, ss[n].reaped[pid])
  {
    hide Inv, Enabled, Next;
    BooksStay(ss, acts, n, n, pid);
    p, m := ExitStatus(ss, acts, n, pid);
  }

  /** How many steps of its own exit still takes, with `n` slots, until the process is off its stack. */
  function ExitLeft(e: ExitPc, n: nat): nat {
    match e
    case Enter => 2 * n + 6
    case Reparent(i) => 2 * Beyond(i, n) + 5
    case WakeInit(i) => 2 * Beyond(i + 1, n) + 6
    case WakeParent => 4
    case Die => 3
    case Unwait => 2
    case Depart => 1
    case Gone => 0
    case Dead => 0
  }

  /** The process of pid `pid` is in exit with status `st` and at most `left` own steps from its end,
      or wait has collected it. */
  ghost predicate GoesOn(t: State, p: nat, pid: nat, st: int, left: int) {
    pid in t.reaped ||
    (&& p < |t.procs| && t.procs[p].pid == pid && t.procs[p].pc.Exiting? && t.procs[p].pc.st == st
     && ExitLeft(t.procs[p].pc.e, |t.procs|) <= left)
  }

  lemma ExitOwn(s: State, p: nat)
    requires p < |s.procs| && s.procs[p].pc.Exiting? && Enabled(s, Step(p))
    ensures var t, x := ExitNext(s, p), s.procs[p];
      |t.procs| == |s.procs| && GoesOn(t, p, x.pid, x.pc.st, ExitLeft(x.pc.e, |s.procs|) - 1)
  {
    hide ExitLeft;
    ExitExiting(s, p, p);
    ExitPcOwn(s, p);
  }

  lemma ExitPcOwn(s: State, p: nat)
    requires p < |s.procs| && s.procs[p].pc.Exiting? && !s.procs[p].pc.e.Gone? && !s.procs[p].pc.e.Dead?
    ensures var t, e := ExitNext(s, p), s.procs[p].pc.e;
      && |t.procs| == |s.procs| && t.procs[p].pc.Exiting? && t.procs[p].pid == s.procs[p].pid
      && t.procs[p].pc.st == s.procs[p].pc.st && ExitLeft(t.procs[p].pc.e, |s.procs|) < ExitLeft(e, |s.procs|)
  {
    match s.procs[p].pc.e
    case Enter =>
    case Reparent(i) =>
    case _ =>
  }

  /** How another action leaves a process that is in exit. */
  ghost predicate LeftBe(s: State, t: State, p: nat)
    requires p < |s.procs| && s.procs[p].pc.Exiting?
  {
    && |t.procs| == |s.procs|
    && GoesOn(t, p, s.procs[p].pid, s.procs[p].pc.st, ExitLeft(s.procs[p].pc.e, |s.procs|))
  }

  lemma CallLeaves(s: State, a: Action, p: nat)
    requires Inv(s) && Enabled(s, a) && p < |s.procs| && s.procs[p].pc.Exiting? && !a.Step?
    ensures LeftBe(s, CallStep(s, a), p)
  {
    hide PidsDiffer, BooksOk, ChildOk, DyingOk, ScanOk, ParentOk, PidOk, InitOk;
    Knows(s, p);
    Knows(s, a.p);
  }

  lemma ExitLeaves(s: State, q: nat, p: nat)
    requires q < |s.procs| && s.procs[q].pc.Exiting? && p < |s.procs| && s.procs[p].pc.Exiting? && p != q
    ensures LeftBe(s, ExitNext(s, q), p)
  {
    hide ExitLeft;
    match s.procs[q].pc.e
    case Reparent(i) =>
    case WakeInit(i) =>
    case WakeParent =>
    case _ =>
  }

  lemma WaitLeaves(s: State, q: nat, p: nat)
    requires q < |s.procs| && s.procs[q].pc.InWait? && p < |s.procs| && s.procs[p].pc.Exiting?
    ensures LeftBe(s, WaitNext(s, q), p)
  {
    hide ExitLeft;
    match s.procs[q].pc.w
    case Scan(i, kids) =>
    case Decide(kids) =>
    case _ =>
  }

  lemma ExitOther(s: State, a: Action, p: nat)
    requires Inv(s) && Enabled(s, a) && p < |s.procs| && s.procs[p].pc.Exiting? && a != Step(p)
    ensures LeftBe(s, Next(s, a), p)
  {
    hide Inv, CallStep, ExitStep, WaitStep, ExitLeft;
    if !a.Step? {
      CallLeaves(s, a, p);
    } else if s.procs[a.p].pc.Exiting? {
      ExitLeaves(s, a.p, p);
    } else if s.procs[a.p].pc.InWait? {
      WaitLeaves(s, a.p, p);
    } else {
      ForkSlot(s, a.p);
    }
  }

  lemma ExitMoves(s: State, a: Action, p: nat, pid: nat, st: int, left: int)
    requires Inv(s) && Enabled(s, a) && GoesOn(s, p, pid, st, left)
    ensures GoesOn(Next(s, a), p, pid, st, left - Tally(a, Step(p)))
  {
    hide Inv, ExitLeft, Enabled, Next;
    if pid in s.reaped {
      ReapedStays(s, a, pid);
    } else if a == Step(p) {
      NextIsExit(s, p);
      ExitOwn(s, p);
    } else {
      ExitOther(s, a, p);
    }
  }

  lemma NextIsExit(s: State, p: nat)
    requires p < |s.procs| && s.procs[p].pc.Exiting? && Enabled(s, Step(p))
    ensures Next(s, Step(p)) == ExitNext(s, p)
  {}

  lemma ReapedStays(s: State, a: Action, pid: nat)
    requires Inv(s) && Enabled(s, a) && pid in s.reaped
    ensures pid in Next(s, a).reaped
  {
    hide Inv, Enabled, Next;
    StepBook(s, a);
  }

  /** exit never returns and always gets through: whoever calls it is in exit from then on, until
      wait collects it, and is off its stack after at most two steps per slot and six more. */
  lemma {:induction false} ExitEnds(ss: seq<State>, acts: seq<Action>, m: nat, n: nat)
    requires Run(ss, acts) && m < n < |ss| && acts[m].Exit?
    ensures var p := acts[m].p;
      && p < |ss[m].procs|
      && GoesOn(ss[n], p, ss[m].procs[p].pid, acts[m].st, 2 * |ss[0].procs| + 6 - Count(acts[m + 1..n], Step(p)))
    decreases n
  {
    hide Inv, Initial, GoesOn, Enabled, Next, Count;
    var p := acts[m].p;
    assert p < |ss[m].procs| by { Caller(ss[m], acts[m]); }
    CountNone(acts, m + 1, Step(p));
    RunInv(ss, acts, n - 1);
    Sizes(ss, acts, m);
    if n == m + 1 {
      ExitBegins(ss[m], p, acts[m].st);
    } else {
      ExitEnds(ss, acts, m, n - 1);
      CountMore(acts, m + 1, n - 1, Step(p));
      ExitMoves(ss[n - 1], acts[n - 1], p, ss[m].procs[p].pid, acts[m].st,
        2 * |ss[0].procs| + 6 - Count(acts[m + 1..n - 1], Step(p)));
    }
  }

  lemma Caller(s: State, a: Action)
    requires Enabled(s, a)
    ensures a.p < |s.procs|
  {}

  lemma ExitBegins(s: State, p: nat, st: int)
    requires Enabled(s, Exit(p, st))
    ensures GoesOn(Next(s, Exit(p, st)), p, s.procs[p].pid, st, 2 * |s.procs| + 6)
  {}

  /** A process calls exit at most once. */
  lemma ExitOnce(ss: seq<State>, acts: seq<Action>, m: nat, n: nat)
    requires Run(ss, acts) && m < n < |acts| && acts[m].Exit? && acts[n].Exit?
    ensures acts[m].p < |ss[m].procs| && acts[n].p < |ss[n].procs|
    ensures ss[m].procs[acts[m].p].pid != ss[n].procs[acts[n].p].pid
  {
    hide Initial, Next, ParentOk, ChildOk, DyingOk, ScanOk, InitOk, BooksOk, Runs;
    var p, q := acts[m].p, acts[n].p;
    ExitEnds(ss, acts, m, n);
    RunInv(ss, acts, n);
    Knows(ss[n], q);
    assert p < |ss[n].procs| ==> PidsDiffer(ss[n], p, q);
  }

  // ---- fork ----

  /** A process that has been launched has a parent, unless it is init; a fork that is about to launch
      its child has adopted it. */
  ghost predicate Fostered(s: State, j: nat)
    requires j < |s.procs|
  {
    var x := s.procs[j];
    && (j != INIT && !x.pc.None? && !x.pc.Made? ==> x.parent != -1)
    && (x.pc.Launch? && x.pc.c < |s.procs| ==> s.procs[x.pc.c].parent == j)
  }

  ghost predicate Family(s: State) { forall j {:trigger Fostered(s, j)} :: 0 <= j < |s.procs| ==> Fostered(s, j) }

  /** A slot comes to life by the last step of the fork that fills it, and RUNNABLE. */
  ghost predicate Launches(s: State, t: State, a: Action, j: nat)
    requires j < |s.procs| == |t.procs|
  {
    (s.procs[j].pc.None? || s.procs[j].pc.Made?) && !t.procs[j].pc.None? && !t.procs[j].pc.Made? ==>
      && a.Step? && a.p < |s.procs| && s.procs[a.p].pc == Launch(j) && t.procs[a.p].pc == User
      && t.procs[j].pc == Ready && t.procs[j].state == RUNNABLE && t.procs[j].parent == s.procs[j].parent
  }

  lemma CallLaunches(s: State, a: Action, j: nat)
    requires Inv(s) && Enabled(s, a) && j < |s.procs| && !a.Step?
    ensures |CallStep(s, a).procs| == |s.procs| && Launches(s, CallStep(s, a), a, j)
  {
    hide ParentOk, ChildOk, DyingOk, ScanOk, PidOk, PidsDiffer, BooksOk, InitOk;
    Knows(s, j);
    Knows(s, a.p);
  }

  lemma ExitElsewhere(s: State, p: nat, q: nat)
    requires p < |s.procs| && s.procs[p].pc.Exiting? && q < |s.procs|
    ensures var t := ExitNext(s, p);
      |t.procs| == |s.procs| && if q == p then t.procs[q].pc.Exiting? else t.procs[q].pc == s.procs[q].pc
  {
    match s.procs[p].pc.e
    case Reparent(i) =>
    case WakeInit(i) =>
    case WakeParent =>
    case _ =>
  }

  lemma WaitElsewhere(s: State, p: nat, q: nat)
    requires p < |s.procs| && s.procs[p].pc.InWait? && q < |s.procs|
    ensures var t := WaitNext(s, p);
      |t.procs| == |s.procs| && (q != p ==> t.procs[q].pc == s.procs[q].pc || t.procs[q].pc.None?)
  {
    match s.procs[p].pc.w
    case Scan(i, kids) =>
    case Decide(kids) =>
    case _ =>
  }

  lemma StepLaunches(s: State, a: Action, j: nat)
    requires Inv(s) && Enabled(s, a) && j < |s.procs|
    ensures |Next(s, a).procs| == |s.procs| && Launches(s, Next(s, a), a, j)
  {
    hide Inv, CallStep, ExitStep, WaitStep;
    if !a.Step? {
      CallLaunches(s, a, j);
    } else if s.procs[a.p].pc.Exiting? {
      ExitElsewhere(s, a.p, j);
    } else if s.procs[a.p].pc.InWait? {
      WaitElsewhere(s, a.p, j);
    } else {
      ForkSlot(s, a.p);
    }
  }

  /** A process that is at the end of a fork after a step of its own has adopted the child by it, or
      has been killed there. */
  lemma OwnAdoption(s: State, a: Action)
    requires Inv(s) && Family(s) && Enabled(s, a) && Next(s, a).procs[a.p].pc.Launch?
    ensures var t := Next(s, a); var c := t.procs[a.p].pc.c; c < |t.procs| ==> t.procs[c].parent == a.p
  {
    hide ChildOk, DyingOk, ScanOk, PidOk, PidsDiffer, BooksOk, MayHave, ExitStep, WaitStep, ParentOk;
    var t := Next(s, a);
    Knows(s, a.p);
    assert Fostered(s, a.p);
    if a.Step? && s.procs[a.p].pc.Exiting? {
      ExitElsewhere(s, a.p, a.p);
    } else if a.Step? && s.procs[a.p].pc.InWait? {
      WaitPcStep(s, a, a.p);
    }
  }

  lemma AdoptedStays(s: State, a: Action, j: nat)
    requires Inv(s) && Family(s) && Enabled(s, a) && j < |s.procs| == |Next(s, a).procs| && j != a.p
    requires Next(s, a).procs[j].pc.Launch?
    ensures var t := Next(s, a); var c := t.procs[j].pc.c; c < |t.procs| ==> t.procs[c].parent == j
  {
    hide Inv, Next, Enabled;
    var t := Next(s, a);
    StepPc(s, a, j);
    assert Fostered(s, j);
    var c := t.procs[j].pc.c;
    if c < |t.procs| { StepLinks(s, a, c); }
  }

  lemma NextFamily(s: State, a: Action)
    requires Inv(s) && Family(s) && Enabled(s, a)
    ensures Family(Next(s, a))
  {
    hide Inv, Next, Enabled, Fostered;
    var t := Next(s, a);
    StepBook(s, a);
    forall j: nat | j < |t.procs| ensures Fostered(t, j) { FosteredNext(s, a, j); }
  }

  lemma FosteredNext(s: State, a: Action, j: nat)
    requires Inv(s) && Family(s) && Enabled(s, a) && j < |s.procs|
    ensures j < |Next(s, a).procs| && Fostered(Next(s, a), j)
  {
    hide Inv, Next, Enabled, Family;
    var t := Next(s, a);
    StepLinks(s, a, j);
    StepLaunches(s, a, j);
    assert Fostered(s, j) && Fostered(s, a.p) by { FamilyAt(s, j); FamilyAt(s, a.p); }
    if t.procs[j].pc.Launch? {
      if j == a.p { OwnAdoption(s, a); } else { AdoptedStays(s, a, j); }
    }
  }

  lemma FamilyAt(s: State, j: nat)
    requires Family(s) && j < |s.procs|
    ensures Fostered(s, j)
  {}

  lemma {:induction false} RunFamily(ss: seq<State>, acts: seq<Action>, n: nat)
    requires Run(ss, acts) && n < |ss|
    ensures Family(ss[n])
  {
    hide Inv, Enabled, Next, Fostered;
    if n == 0 {
      assert Family(ss[0]) by { InitialFamily(ss[0]); }
    } else {
      RunFamily(ss, acts, n - 1);
      RunInv(ss, acts, n - 1);
      NextFamily(ss[n - 1], acts[n - 1]);
    }
  }

  lemma InitialFamily(s: State)
    requires Initial(s)
    ensures Family(s)
  {}

  /** Nobody is left without a parent to collect it: from its launch until wait frees its slot, every
      process but init is the child of one that is alive. */
  lemma NoOrphans(ss: seq<State>, acts: seq<Action>, n: nat, q: nat)
    requires Run(ss, acts) && n < |ss| && q < |ss[n].procs| && q != INIT
    requires ss[n].procs[q].state !in {UNUSED, USED}
    ensures var p := ss[n].procs[q].parent;
      0 <= p < |ss[n].procs| && ss[n].procs[p].state !in {UNUSED, USED, ZOMBIE}
  {
    hide Initial, Enabled, Next, PidsDiffer, BooksOk;
    RunFamily(ss, acts, n);
    FamilyAt(ss[n], q);
    RunInv(ss, acts, n);
    Knows(ss[n], q);
    ParentsAlive(ss, acts, n, q);
  }

  /** The child a fork launches is RUNNABLE and its own, and the fork returns. */
  lemma LaunchedByParent(ss: seq<State>, acts: seq<Action>, n: nat, q: nat)
    requires Run(ss, acts) && n < |acts| && q < |ss[n].procs|
    requires ss[n].procs[q].state in {UNUSED, USED}
    ensures q < |ss[n + 1].procs|
    ensures var y, p := ss[n + 1].procs[q], acts[n].p;
      y.state !in {UNUSED, USED} ==>
        acts[n].Step? && p < |ss[n + 1].procs| && y.parent == p && y.state == RUNNABLE && ss[n + 1].procs[p].pc == User
  {
    hide Initial, Enabled, Next, PidsDiffer, BooksOk;
    RunFamily(ss, acts, n);
    RunInv(ss, acts, n);
    RunInv(ss, acts, n + 1);
    StepLaunches(ss[n], acts[n], q);
    Knows(ss[n], q);
    Knows(ss[n + 1], q);
    assert acts[n].p < |ss[n].procs| by { Caller(ss[n], acts[n]); }
    FamilyAt(ss[n], acts[n].p);
  }
}
