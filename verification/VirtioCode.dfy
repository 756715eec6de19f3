/** The driver side of kernel/virtio_disk.c as it changes struct disk in place. */
module VirtioCode {
  import opened VirtioModel

  /** Free descriptors are blank. */
  ghost predicate Blank(s: State) {
    |s.free| == |s.desc| == NUM && forall d {:trigger s.desc[d]} :: 0 <= d < NUM && s.free[d] ==> s.desc[d] == NoDesc
  }

  predicate ByDevice(a: Action) { a.DevTake? || a.DevWrite? || a.DevBump? }

  /** What the device does on its own: of the steps in `acts`, those it can take. */
  function DeviceRuns(s: State, acts: seq<Action>): State
    decreases |acts|
  {
    if acts == [] then s else
    DeviceRuns(if ByDevice(acts[0]) && Enabled(s, acts[0]) then Next(s, acts[0]) else s, acts[1..])
  }

  /** What the device leaves alone. */
  ghost predicate DeviceKeeps(s: State, t: State) {
    && Inv(t) && t.lock == s.lock && t.free == s.free && t.desc == s.desc && t.flags == s.flags && t.busy == s.busy
    && t.usedSeen == s.usedSeen && s.finished <= t.finished
  }

  lemma DeviceStep(s: State, a: Action)
    requires Inv(s) && ByDevice(a) && Enabled(s, a)
    ensures DeviceKeeps(s, Next(s, a))
  {
    hide Inv, First, Three, Take;
    NextInv(s, a);
  }

  lemma {:induction false} DeviceSafe(s: State, acts: seq<Action>)
    requires Inv(s)
    ensures DeviceKeeps(s, DeviceRuns(s, acts))
    decreases |acts|
  {
    hide Inv, Enabled, Next;
    if acts != [] {
      var t := if ByDevice(acts[0]) && Enabled(s, acts[0]) then Next(s, acts[0]) else s;
      if ByDevice(acts[0]) && Enabled(s, acts[0]) { DeviceStep(s, acts[0]); }
      DeviceSafe(t, acts[1..]);
    }
  }

  /** The handler's loop, the device running on meanwhile: it does `plan[0]` before the loop's
      first test, `plan[1]` before the second, and nothing once the plan is over. */
  ghost function Handled(s: State, plan: seq<seq<Action>>): State
    requires Inv(s) && s.lock.InIntr?
    decreases |plan|, |s.finished|
  {
    var t := if plan == [] then s else DeviceRuns(s, plan[0]);
    assert DeviceKeeps(s, t) by { if plan != [] { DeviceSafe(s, plan[0]); } }
    if t.finished == [] then t else
      Turn(t);
      Handled(Next(t, IntrStep), if plan == [] then [] else plan[1..])
  }

  /** A turn of the handler takes one completion off the queue. */
  lemma Turn(s: State)
    requires Inv(s) && s.lock.InIntr? && s.finished != []
    ensures Enabled(s, IntrStep) && Inv(Next(s, IntrStep)) && Next(s, IntrStep).finished == s.finished[1..]
    ensures Next(s, IntrStep).lock.InIntr?
  {
    assert Enabled(s, IntrStep) by { HeadsFew(s); }
    IntrReads(s);
    IntrInv(s);
  }

  class Virtio {
    var s: State

    ghost predicate Valid()
      reads this
    {
      Inv(s) && Blank(s)
    }

    /** virtio_disk_init: zeroed queues and every descriptor free; `flags` are the buffers' own. */
    constructor (flags: map<nat, bool>)
      ensures Valid() && Initial(s) && s.flags == flags
    {
      var free := seq(NUM, _ => false);
      var i := 0;
      while i < NUM
        invariant 0 <= i <= NUM && |free| == NUM && forall d :: 0 <= d < i ==> free[d]
      {
        free := free[i := true];
        i := i + 1;
      }
      s := State(free, seq(NUM, _ => NoDesc), seq(NUM, _ => Cmd(false, 0)), seq(NUM, _ => Info(-1, 0)),
                 seq(NUM, _ => 0), 0, seq(NUM, _ => 0), 0, 0, flags, 0, Idle,
                 map[], seq(NUM, _ => -1), map[], 0, [], 0, [], -1);
    }

    /** kernel/virtio_disk.c:156-166. */
    method AllocDesc() returns (i: int)
      requires |s.free| == NUM
      modifies this
      ensures i == -1 <==> First(old(s).free, 0) == NUM
      ensures i == -1 ==> s == old(s)
      ensures i != -1 ==> i == First(old(s).free, 0) && s == old(s).(free := Take(old(s).free))
    {
      i := 0;
      while i < NUM
        invariant 0 <= i <= NUM && s == old(s) && First(s.free, 0) == First(s.free, i)
      {
        if s.free[i] {
          s := s.(free := s.free[i := false]);
          return;
        }
        i := i + 1;
      }
      i := -1;
    }

    /** kernel/virtio_disk.c:169-182; the index must be one in use, or free_desc panics. */
    method FreeDesc(i: nat)
      requires |s.free| == |s.desc| == NUM && i < NUM && !s.free[i]
      modifies this
      ensures s == old(s).(free := old(s).free[i := true], desc := old(s).desc[i := NoDesc])
    {
      s := s.(desc := s.desc[i := Desc(NoAddr, false, false, 0)]);
      s := s.(free := s.free[i := true]);
    }

    /** kernel/virtio_disk.c:201-213: three descriptors, or none taken. */
    method Alloc3Desc() returns (ok: bool, idx: seq<nat>)
      requires |s.free| == NUM && Blank(s)
      modifies this
      ensures ok <==> HasThree(old(s).free)
      ensures ok ==> idx == Three(old(s).free) && s == old(s).(free := Take(Take(Take(old(s).free))))
      ensures !ok ==> s == old(s)
    {
      idx := [];
      ghost var f := s.free;
      NoneHeld(f);
      while |idx| < 3
        invariant |idx| <= 3 && Grabbed(f, idx) && s == old(s).(free := HeldOut(f, idx))
        decreases 3 - |idx|
      {
        var i := AllocDesc();
        if i < 0 {
          NoThree(f, idx);
          var j := 0;
          while j < |idx|
            invariant 0 <= j <= |idx| && s == old(s).(free := HeldOut(f, idx[j..]))
          {
            GiveBack(old(s), idx, j);
            FreeDesc(idx[j]);
            j := j + 1;
          }
          NoneHeld(f);
          assert idx[j..] == [];
          return false, idx;
        }
        GrabMore(f, idx);
        idx := idx + [i as nat];
      }
      GotThree(f, idx);
      ok := true;
    }

    /** kernel/virtio_disk.c:185-197, from the head of a request. */
    method FreeChain(h: nat)
      requires Valid() && h in s.reqs
      modifies this
      ensures Chained(old(s), h)
      ensures var c := old(s).reqs[h].chain;
        s == old(s).(free := old(s).free[c[0] := true][c[1] := true][c[2] := true],
          desc := old(s).desc[c[0] := NoDesc][c[1] := NoDesc][c[2] := NoDesc])
    {
      hide Inv, Blank;
      ChainIs(s, h);
      ghost var c, k := s.reqs[h].chain, 0;
      var i := h;
      while true
        invariant 0 <= k < 3 && i == c[k]
        invariant k == 0 ==> s == old(s)
        invariant k == 1 ==> s == old(s).(free := old(s).free[c[0] := true], desc := old(s).desc[c[0] := NoDesc])
        invariant k == 2 ==> s == old(s).(free := old(s).free[c[0] := true][c[1] := true],
          desc := old(s).desc[c[0] := NoDesc][c[1] := NoDesc])
        decreases 3 - k
      {
        var more, next := s.desc[i].more, s.desc[i].next;
        FreeDesc(i);
        if !more { break; }
        i, k := next, k + 1;
      }
    }

    /** kernel/virtio_disk.c:226-277: no room, or the request is formatted and published. */
    method Start(b: nat, cmd: Cmd) returns (ok: bool)
      requires Valid() && s.lock.Idle? && b !in s.busy
      modifies this
      ensures ok <==> HasThree(old(s).free)
      ensures !ok ==> s == old(s)
      ensures ok ==>
        && Enabled(old(s), Submit(b, cmd)) && Enabled(Submitted(old(s), b, cmd), Publish)
        && s == Next(Submitted(old(s), b, cmd), Publish)
      ensures Valid()
    {
      hide Inv, Blank, First, Take;
      SizedInv(s);
      ghost var s0 := s;
      var idx;
      ok, idx := Alloc3Desc();
      if !ok { return; }
      ThreeFree(s0.free);
      StartOk(s0, b, cmd);
      s := s.(ops := s.ops[idx[0] := cmd]);
      s := s.(desc := s.desc[idx[0] := Desc(Op(idx[0]), false, true, idx[1])]);
      s := s.(desc := s.desc[idx[1] := Desc(Data(b), !cmd.write, true, idx[2])]);
      s := s.(info := s.info[idx[0] := Info(b, 255)]);
      s := s.(desc := s.desc[idx[2] := Desc(Status(idx[0]), true, false, 0)]);
      s := s.(flags := s.flags[b := true]);
      s := s.(avail := s.avail[s.availIdx % NUM := idx[0]]);
      s := s.(lock := Publishing(idx[0]), reqs := s.reqs[idx[0] := Req(idx, b, cmd, Ready)],
              owner := s.owner[idx[0] := idx[0]][idx[1] := idx[0]][idx[2] := idx[0]], busy := s.busy[b := idx[0]]);
      assert s == Submitted(s0, b, cmd);
      s := Mark(s, idx[0], Posted).(availIdx := (s.availIdx + 1) % U16, lock := Idle, waiting := s.waiting + [idx[0]]);
    }

    /** kernel/virtio_disk.c:283-291: the request is over when b->disk is clear. */
    method Complete(h: nat)
      requires Valid() && Enabled(s, Finish(h))
      modifies this
      ensures s == Next(old(s), Finish(h)) && Valid()
    {
      hide Inv, Blank;
      ClearIsSeen(s, h);
      FinishInv(s, h);
      FinishBlank(s, h);
      SizedInv(s);
      FreeChain(h);
      s := s.(info := s.info[h := s.info[h].(b := -1)]);
      s := s.(reqs := s.reqs - {h}, busy := s.busy - {s.reqs[h].buf},
              owner := s.owner[s.reqs[h].chain[0] := -1][s.reqs[h].chain[1] := -1][s.reqs[h].chain[2] := -1]);
    }

    /** One turn of the handler's loop, kernel/virtio_disk.c:313-323. */
    method HandleOne()
      requires Valid() && s.lock.InIntr? && s.finished != []
      modifies this
      ensures Enabled(old(s), IntrStep) && s == Next(old(s), IntrStep) && Valid() && s.lock.InIntr?
    {
      hide Inv, Blank, Next, Enabled;
      SizedInv(s);
      Turn(s);
      IntrReads(s);
      TurnIs(s);
      var id := s.used[s.usedSeen % NUM];
      ghost var s0 := s;
      s := s.(flags := s.flags[s.info[id].b := false]);
      s := s.(usedSeen := (s.usedSeen + 1) % U16);
      s := Mark(s, id, Seen).(seen := s.seen + 1, finished := s.finished[1..]);
      assert s == Next(s0, IntrStep);
    }

    /** kernel/virtio_disk.c:312-324; `plan` is what the device does meanwhile. */
    method Intr(plan: seq<seq<Action>>)
      requires Valid() && s.lock.InIntr?
      modifies this
      ensures s == Handled(old(s), plan) && s.finished == [] && Valid()
    {
      hide Inv, Blank, Next, Enabled, DeviceRuns;
      var todo := plan;
      while true
        invariant Valid() && s.lock.InIntr? && Handled(s, todo) == Handled(old(s), plan)
        decreases |todo|, |s.finished|
      {
        if todo != [] {
          DeviceSafe(s, todo[0]);
          DeviceBlank(s, DeviceRuns(s, todo[0]));
          s := DeviceRuns(s, todo[0]);
        }
        HeadsFew(s);
        if s.usedSeen == s.usedIdx {
          return;
        }
        Turn(s);
        HandleOne();
        todo := if todo == [] then [] else todo[1..];
      }
    }
  }

  lemma DeviceBlank(s: State, t: State)
    requires Blank(s) && DeviceKeeps(s, t)
    ensures Blank(t)
  {
    hide Inv;
  }

  /** `f` with the descriptors in `q` taken out. */
  function HeldOut(f: seq<bool>, q: seq<nat>): (r: seq<bool>)
    ensures |r| == |f| && forall d :: 0 <= d < |f| ==> r[d] == (f[d] && d !in q)
  {
    seq(|f|, d requires 0 <= d < |f| => f[d] && d !in q)
  }

  /** `q` was grabbed from `f` one after the other, each the first then free. */
  predicate Grabbed(f: seq<bool>, q: seq<nat>) {
    q == [] || (Grabbed(f, q[..|q| - 1]) && q[|q| - 1] == First(HeldOut(f, q[..|q| - 1]), 0) < |f|)
  }

  lemma NoneHeld(f: seq<bool>)
    ensures HeldOut(f, []) == f
  {
  }

  lemma GrabMore(f: seq<bool>, q: seq<nat>)
    requires Grabbed(f, q) && First(HeldOut(f, q), 0) < |f|
    ensures var i := First(HeldOut(f, q), 0); Grabbed(f, q + [i]) && Take(HeldOut(f, q)) == HeldOut(f, q + [i])
  {
    var i := First(HeldOut(f, q), 0);
    assert (q + [i])[..|q|] == q;
  }

  lemma GotThree(f: seq<bool>, q: seq<nat>)
    requires Grabbed(f, q) && |q| == 3
    ensures HasThree(f) && q == Three(f) && HeldOut(f, q) == Take(Take(Take(f)))
  {
    hide First, Take, HeldOut;
    var a, b, c := q[0], q[1], q[2];
    assert q == [a, b, c] && q[..2] == [a, b] && [a, b][..1] == [a] && [a][..0] == [];
    assert Grabbed(f, [a, b]) && Grabbed(f, [a]);
    NoneHeld(f);
    GrabMore(f, []);
    GrabMore(f, [a]);
    GrabMore(f, [a, b]);
    assert [] + [a] == [a] && [a] + [b] == [a, b] && [a, b] + [c] == q;
  }

  lemma NoThree(f: seq<bool>, q: seq<nat>)
    requires Grabbed(f, q) && |q| < 3 && First(HeldOut(f, q), 0) == |f|
    ensures !HasThree(f)
  {
    hide First, Take, HeldOut, Grabbed;
    NoneHeld(f);
    GrabbedUp(f, 0, 0);
    if |q| == 0 {
      assert q == [];
      TakeNone(f);
    } else if |q| == 1 {
      assert q == [q[0]] && [] + [q[0]] == q;
      GrabbedUp(f, q[0], 0);
      GrabMore(f, []);
      TakeNone(HeldOut(f, q));
    } else {
      var a, b := q[0], q[1];
      assert q == [a, b] && [] + [a] == [a] && [a] + [b] == q;
      GrabbedUp(f, a, b);
      GrabMore(f, []);
      GrabMore(f, [a]);
    }
  }

  lemma GrabbedUp(f: seq<bool>, a: nat, b: nat)
    ensures Grabbed(f, [])
    ensures Grabbed(f, [a]) ==> a == First(HeldOut(f, []), 0) < |f|
    ensures Grabbed(f, [a, b]) ==>
      Grabbed(f, [a]) && a == First(HeldOut(f, []), 0) < |f| && b == First(HeldOut(f, [a]), 0) < |f|
  {
    hide First, HeldOut;
    assert [a][..0] == [] && [a, b][..1] == [a];
  }

  lemma TakeNone(f: seq<bool>)
    requires First(f, 0) == |f|
    ensures Take(f) == f
  {}

  lemma GiveBack(s: State, q: seq<nat>, j: nat)
    requires |s.free| == NUM && Blank(s) && Grabbed(s.free, q) && j < |q|
    ensures q[j] < NUM && !HeldOut(s.free, q[j..])[q[j]]
    ensures s.free[q[j]] && HeldOut(s.free, q[j..])[q[j] := true] == HeldOut(s.free, q[j + 1..])
    ensures s.desc[q[j] := NoDesc] == s.desc
  {
    hide Grabbed, First;
    GrabbedOk(s.free, q, j);
    var x := q[j];
    TailElems(q, j);
    var a, b := HeldOut(s.free, q[j..])[x := true], HeldOut(s.free, q[j + 1..]);
    forall d | 0 <= d < NUM ensures a[d] == b[d] { assert d in q[j..] <==> d == x || d in q[j + 1..]; }
  }

  lemma TailElems(q: seq<nat>, j: nat)
    requires j < |q| && forall k :: 0 <= k < |q| && k != j ==> q[k] != q[j]
    ensures q[j] in q[j..] && q[j] !in q[j + 1..] && forall d :: d in q[j..] <==> d == q[j] || d in q[j + 1..]
  {
    assert q[j..] == [q[j]] + q[j + 1..];
  }

  /** What is grabbed was free, and nothing is grabbed twice. */
  lemma {:induction false} GrabbedOk(f: seq<bool>, q: seq<nat>, j: nat)
    requires Grabbed(f, q) && j < |q|
    ensures q[j] < |f| && f[q[j]] && forall k :: 0 <= k < |q| && k != j ==> q[k] != q[j]
  {
    var p, x := q[..|q| - 1], q[|q| - 1];
    assert q == p + [x] && HeldOut(f, p)[x] && x !in p;
    if j < |p| { GrabbedOk(f, p, j); }
  }

  lemma ChainIs(s: State, h: nat)
    requires Inv(s) && Blank(s) && h in s.reqs
    ensures Sized(s) && Chained(s, h) && var c := s.reqs[h].chain;
      c[0] == h && c[0] != c[1] && c[0] != c[2] && c[1] != c[2] && !s.free[c[0]] && !s.free[c[1]] && !s.free[c[2]]
    ensures var c := s.reqs[h].chain;
      s.desc[c[0]].more && s.desc[c[0]].next == c[1] && s.desc[c[1]].more && s.desc[c[1]].next == c[2]
        && !s.desc[c[2]].more
  {
    hide Queue, LockOk, WriteOk, IdxOk, BusyOk;
    assert Asked(s, h);
    var c := s.reqs[h].chain;
    assert OwnerOk(s.free, s.owner, s.reqs, c[0]) && OwnerOk(s.free, s.owner, s.reqs, c[1])
      && OwnerOk(s.free, s.owner, s.reqs, c[2]);
  }

  lemma StartOk(s: State, b: nat, cmd: Cmd)
    requires Inv(s) && Blank(s) && s.lock.Idle? && b !in s.busy && HasThree(s.free)
    ensures Enabled(s, Submit(b, cmd)) && Enabled(Submitted(s, b, cmd), Publish)
    ensures Inv(Next(Submitted(s, b, cmd), Publish)) && Blank(Next(Submitted(s, b, cmd), Publish))
  {
    hide Inv, First, Take;
    SizedInv(s);
    ThreeFree(s.free);
    SubmitInv(s, b, cmd);
    SizedInv(Submitted(s, b, cmd));
    PublishInv(Submitted(s, b, cmd));
  }

  lemma FinishBlank(s: State, h: nat)
    requires Inv(s) && Blank(s) && Chained(s, h)
    ensures Blank(Freed(s, h))
  {
    hide Inv;
    SizedInv(s);
  }

  lemma TurnIs(s: State)
    requires Inv(s) && Enabled(s, IntrStep) && s.finished != [] && Blank(s)
    requires var id := s.used[s.usedSeen % NUM]; id < NUM && id in s.reqs && s.info[id].b >= 0
    ensures var id := s.used[s.usedSeen % NUM]; var t := Next(s, IntrStep);
      t == Mark(s, id, Seen).(flags := s.flags[s.info[id].b := false], usedSeen := (s.usedSeen + 1) % U16,
        seen := s.seen + 1, finished := s.finished[1..]) && Blank(t)
  {
    hide Inv;
  }

  /** After the handler every completion the device has made known is seen: the buffers whose
      requests were done when it started are clear, and a buffer has its flag still set exactly if
      it had it and its own request's completion has not been seen. */
  lemma {:induction false} HandledFlags(s: State, plan: seq<seq<Action>>, b: nat)
    requires Inv(s) && s.lock.InIntr? && b in s.flags
    ensures var t := Handled(s, plan);
      && Inv(t) && t.finished == [] && t.flags.Keys == s.flags.Keys && t.busy == s.busy
      && (b in s.busy && s.busy[b] in s.finished ==> !t.flags[b])
      && (t.flags[b] ==> s.flags[b])
      && (b !in s.busy ==> t.flags[b] == s.flags[b])
      && (b in s.busy ==> s.busy[b] in t.reqs && (t.flags[b] <==> t.reqs[s.busy[b]].stage != Seen)
                          && t.reqs[s.busy[b]].stage != Done)
    decreases |plan|, |s.finished|
  {
    hide Inv, Enabled, Next, DeviceRuns;
    var t := if plan == [] then s else DeviceRuns(s, plan[0]);
    if plan != [] { DeviceSafe(s, plan[0]); }
    if t.finished == [] {
      PendingIs(t, b);
    } else {
      Turn(t);
      TurnFlags(t, b);
      HandledFlags(Next(t, IntrStep), if plan == [] then [] else plan[1..], b);
      assert forall x :: x in t.finished <==> x == t.finished[0] || x in t.finished[1..] by {
        assert t.finished == [t.finished[0]] + t.finished[1..];
      }
    }
  }

  /** The turn clears the flag of the first completion's buffer and touches no other. */
  lemma TurnFlags(s: State, b: nat)
    requires Inv(s) && s.lock.InIntr? && s.finished != [] && Enabled(s, IntrStep)
    ensures var t := Next(s, IntrStep);
      && t.flags.Keys == s.flags.Keys && t.busy == s.busy
      && (b in s.flags ==> t.flags[b] == (s.flags[b] && !(b in s.busy && s.busy[b] == s.finished[0])))
  {
    hide Inv;
    IntrReads(s);
    BusyIs(s, b);
  }

  lemma PendingIs(s: State, b: nat)
    requires Inv(s) && s.finished == [] && b in s.flags
    ensures b in s.busy ==> s.busy[b] in s.reqs && (s.flags[b] <==> s.reqs[s.busy[b]].stage != Seen)
                            && s.reqs[s.busy[b]].stage != Done
  {
    hide LockOk, WriteOk, IdxOk, OwnerOk;
    assert BusyOk(s.busy, s.reqs, b);
    if b in s.busy { assert Asked(s, s.busy[b]); }
  }

  lemma BusyIs(s: State, b: nat)
    requires Inv(s) && s.finished != []
    ensures var h := s.finished[0]; h in s.reqs && (b == s.reqs[h].buf <==> b in s.busy && s.busy[b] == h)
  {
    hide Queue, LockOk, WriteOk, IdxOk, OwnerOk;
    FirstFinished(s);
    assert Asked(s, s.finished[0]) && BusyOk(s.busy, s.reqs, b);
  }

  lemma FirstFinished(s: State)
    requires Inv(s) && s.finished != []
    ensures s.finished[0] in s.reqs
  {
  }
}
