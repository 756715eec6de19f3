/** virtio_disk_rw (kernel/virtio_disk.c) from call to return, over whole runs: what the device is
    given is what the caller asked for, and the caller goes on only after the device has done it. */
module VirtioCalls {
  import opened VirtioModel

  /** The same request at another stage. */
  predicate SameReq(a: Req, b: Req) { a.(stage := Ready) == b.(stage := Ready) }

  /** The stage a request enters by action `a`. */
  predicate Moves(a: Action, h: nat, g: Stage, to: Stage) {
    || to == g
    || (a.Publish? && g.Ready? && to.Posted?)
    || (a.DevTake? && g.Posted? && to.Taken?)
    || (a == DevWrite(h) && g.Taken? && to.Written?)
    || (a.DevBump? && g.Written? && to.Done?)
    || (a.IntrStep? && g.Done? && to.Seen?)
  }

  /** A request under way is one that was, at the next stage at most, or the one just submitted. */
  ghost predicate ReqStep(s: State, t: State, a: Action, h: nat) {
    h in t.reqs ==>
      if h in s.reqs then SameReq(t.reqs[h], s.reqs[h]) && Moves(a, h, s.reqs[h].stage, t.reqs[h].stage)
      else a == Submit(t.reqs[h].buf, t.reqs[h].cmd) && t.reqs[h].stage == Ready
  }

  lemma SubmitReq(s: State, b: nat, cmd: Cmd, h: nat)
    requires Inv(s) && Enabled(s, Submit(b, cmd))
    ensures ReqStep(s, Submitted(s, b, cmd), Submit(b, cmd), h)
  {
    hide Asked, OwnerOk, BusyOk, First, Three, Take, Queue, LockOk, WriteOk, IdxOk;
    FreshHead(s);
  }

  lemma StepReq(s: State, a: Action, h: nat)
    requires Inv(s) && Enabled(s, a)
    ensures ReqStep(s, Next(s, a), a, h)
  {
    hide Inv, Submitted, First, Three, Take, HasThree;
    match a
    case Submit(b, cmd) => SubmitReq(s, b, cmd, h);
    case Publish => ReadyIs(s);
    case DevTake => TakenIs(s);
    case DevBump => WrittenIs(s);
    case IntrStep => SeenIs(s);
    case _ =>
  }

  lemma ReadyIs(s: State)
    requires Inv(s) && Enabled(s, Publish)
    ensures s.reqs[s.lock.h].stage == Ready
  {}

  lemma TakenIs(s: State)
    requires Inv(s) && Enabled(s, DevTake)
    ensures s.reqs[s.avail[s.devIdx % NUM]].stage == Posted
  {
    hide Asked, OwnerOk, BusyOk;
    TakeReads(s);
  }

  lemma WrittenIs(s: State)
    requires Inv(s) && Enabled(s, DevBump)
    ensures s.reqs[s.writing].stage == Written
  {}

  lemma SeenIs(s: State)
    requires Inv(s) && Enabled(s, IntrStep)
    ensures var id := s.used[s.usedSeen % NUM]; id in s.reqs && s.reqs[id].stage == Done
  {
    hide Asked, OwnerOk, BusyOk;
    HeadsFew(s);
    IntrReads(s);
  }

  /** The request `r` with head `h` was submitted at `m`, and has been under way since. */
  ghost predicate Since(ss: seq<State>, acts: seq<Action>, m: nat, n: nat, h: nat, r: Req) {
    && m < n < |ss| && m < |acts| && acts[m] == Submit(r.buf, r.cmd)
    && forall k {:trigger ss[k]} :: m < k <= n ==> h in ss[k].reqs && SameReq(ss[k].reqs[h], r)
  }

  /** Every request under way is somebody's call. */
  lemma {:induction false} RequestMade(ss: seq<State>, acts: seq<Action>, n: nat, h: nat) returns (m: nat)
    requires Run(ss, acts) && n < |ss| && h in ss[n].reqs
    ensures Since(ss, acts, m, n, h, ss[n].reqs[h])
    decreases n
  {
    hide Inv, Enabled, Next;
    assert n > 0;
    RunInv(ss, acts, n - 1);
    StepReq(ss[n - 1], acts[n - 1], h);
    if h in ss[n - 1].reqs { m := RequestMade(ss, acts, n - 1, h); } else { m := n - 1; }
  }

  /** A request the device has completed was completed by one action of the device, on that request. */
  lemma {:induction false} RequestServed(ss: seq<State>, acts: seq<Action>, n: nat, h: nat) returns (m: nat, k: nat)
    requires Run(ss, acts) && n < |ss| && h in ss[n].reqs && Completed(ss[n].reqs[h].stage)
    ensures Since(ss, acts, m, n, h, ss[n].reqs[h]) && m < k < n && acts[k] == DevWrite(h)
    decreases n
  {
    hide Inv, Enabled, Next;
    assert n > 0;
    RunInv(ss, acts, n - 1);
    StepReq(ss[n - 1], acts[n - 1], h);
    if Completed(ss[n - 1].reqs[h].stage) {
      m, k := RequestServed(ss, acts, n - 1, h);
    } else {
      m := RequestMade(ss, acts, n - 1, h);
      k := n - 1;
    }
  }

  /** virtio_disk_rw returns only once its own request is done: between the call and the return the
      device has carried out one order on this chain, and the order it found there was the caller's
      command, on the caller's buffer, in the right direction. */
  lemma ReturnsServed(ss: seq<State>, acts: seq<Action>, n: nat) returns (m: nat, k: nat)
    requires Run(ss, acts) && n < |acts| && acts[n].Finish?
    ensures var h := acts[n].h;
      && h in ss[n].reqs && m < k < n && acts[m] == Submit(ss[n].reqs[h].buf, ss[n].reqs[h].cmd)
      && acts[k] == DevWrite(h) && Sized(ss[k])
      && View(ss[k], h) == Order(acts[m].cmd, acts[m].b, !acts[m].cmd.write, h)
      && forall j {:trigger ss[j]} :: m < j <= n ==> h in ss[j].reqs && SameReq(ss[j].reqs[h], ss[n].reqs[h])
  {
    hide Inv, Next, View;
    var h := acts[n].h;
    RunInv(ss, acts, n);
    ClearIsSeen(ss[n], h);
    m, k := RequestServed(ss, acts, n, h);
    assert h in ss[k].reqs && SameReq(ss[k].reqs[h], ss[n].reqs[h]);
    DeviceSees(ss, acts, k, h);
  }

  /** The device completes a request at most once. */
  lemma {:induction false} ServedOnce(ss: seq<State>, acts: seq<Action>, m: nat, j: nat, n: nat, h: nat, r: Req)
    requires Run(ss, acts) && Since(ss, acts, m, n, h, r) && m < j < n && acts[j] == DevWrite(h)
    ensures Completed(ss[n].reqs[h].stage)
    ensures forall k {:trigger acts[k]} :: j < k < n ==> acts[k] != DevWrite(h)
    decreases n
  {
    hide Inv, Initial, Next;
    RunInv(ss, acts, n - 1);
    assert h in ss[n - 1].reqs && h in ss[n].reqs;
    assert Enabled(ss[n - 1], acts[n - 1]);
    StepReq(ss[n - 1], acts[n - 1], h);
    if j == n - 1 {
      WriteCompletes(ss[j], h);
    } else {
      ServedOnce(ss, acts, m, j, n - 1, h, r);
    }
  }

  lemma WriteCompletes(s: State, h: nat)
    requires Enabled(s, DevWrite(h))
    ensures h in Next(s, DevWrite(h)).reqs && Completed(Next(s, DevWrite(h)).reqs[h].stage)
  {}
}
