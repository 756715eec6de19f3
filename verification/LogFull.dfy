/** log_write tests for room before it looks whether the block is logged already, and mkfs makes the
    log area LOGSIZE blocks long, header included: operations within their budgets can meet its panic. */
module LogFull {
  import opened LogModel
  import opened Params
  import opened LogRuns

  /** A disk as initlog leaves it: sound, with an empty log. */
  predicate Booted(g: Geometry, d: Disk) { DiskOk(g, d) && Header(d[g.start]) == [] }

  /** Process `p` keeps to its budget when it logs block `b`: it has logged it, or may log one more. */
  predicate WithinBudget(g: Geometry, s: State, p: nat, b: int) {
    && s.phase.Running? && p < |s.slots| && s.slots[p].Active?
    && 0 <= b < |s.disk| && !InLog(g, b) && (b in s.lh || s.slots[p].left > 0)
  }

  /** How many entries the first test of log_write allows. */
  function Cap(g: Geometry): int { if g.size - 1 < LOGSIZE then g.size - 1 else LOGSIZE }

  /** A log_write within budget panics exactly when the log has as many entries as that test allows,
      whether the block is new or logged already. A block that is new meets it only below LOGSIZE. */
  lemma RefusedExactly(g: Geometry, s: State, p: nat, b: int)
    requires Inv(g, s) && WithinBudget(g, s, p, b)
    ensures Full(g, s) <==> |s.lh| == Cap(g)
    ensures Full(g, s) && b !in s.lh ==> |s.lh| == g.size - 1 < LOGSIZE
  {
    hide Coherent, PhaseOk;
    if b !in s.lh { FreshAppendFits(g, s, p); }
  }

  // ---- runs to a full log ----

  /** LOGSIZE blocks from `base` on that lie on the disk and outside the log. */
  predicate Homes(g: Geometry, d: Disk, base: nat) {
    base + LOGSIZE <= |d| && (base >= g.start + g.size || base + LOGSIZE <= g.start)
  }

  function Blocks(base: nat, j: nat): (q: seq<int>)
    ensures |q| == j && forall i :: 0 <= i < j ==> q[i] == base + i
  {
    if j == 0 then [] else Blocks(base, j - 1) + [base + j - 1]
  }

  function Buffers(base: nat, j: nat, data: Block): map<int, Block> {
    if j == 0 then map[] else Buffers(base, j - 1, data)[base + j - 1 := data]
  }

  /** `n` processes; the first is in an operation, and so is the second if there is one. */
  function Slots(a: Slot, b: Slot, n: nat): (q: seq<Slot>)
    requires n >= 1
    ensures |q| == n && q[0] == a && (n >= 2 ==> q[1] == b)
  {
    if n == 1 then [a] else [a, b] + seq(n - 2, _ => Idle)
  }

  /** What the first process may still log after `j` blocks: it logs the first ten, ends, begins
      again and logs ten more. The second has its operation open all along and logs the last ten. */
  function LeftFirst(j: nat): nat { if j <= 10 then 10 - j else if j <= 20 then 20 - j else 0 }
  function LeftSecond(j: nat): nat { if j <= 20 then 10 else if j <= 30 then 30 - j else 0 }

  function After(d: Disk, n: nat, base: nat, j: nat, data: Block): State
    requires n >= 1
  {
    State(d, Buffers(base, j, data), Blocks(base, j), Slots(Active(LeftFirst(j)), Active(LeftSecond(j)), n), Running, d)
  }

  /** The steps that log block `j`. */
  function Turn(base: nat, j: nat, data: Block): seq<Action> {
    (if j == 10 then [End(0), Begin(0)] else []) + [Update(if j < 20 then 0 else 1, base + j, data)]
  }

  function Acts(n: nat, base: nat, j: nat, data: Block): seq<Action> {
    if j > 0 then Acts(n, base, j - 1, data) + Turn(base, j - 1, data)
    else if n == 1 then [Begin(0)] else [Begin(0), Begin(1)]
  }

  lemma {:induction false} RunMore(g: Geometry, s: State, acts: seq<Action>, a: Action)
    requires Inv(g, s) && CanRun(g, s, acts) && Enabled(g, Run(g, s, acts), a)
    ensures CanRun(g, s, acts + [a]) && Run(g, s, acts + [a]) == Next(g, Run(g, s, acts), a)
    decreases |acts|
  {
    hide Inv, Enabled, Next;
    var more := acts + [a];
    if acts == [] {
      NextInv(g, s, a);
      assert more[0] == a && more[1..] == [];
    } else {
      NextInv(g, s, acts[0]);
      assert more[0] == acts[0] && more[1..] == acts[1..] + [a];
      RunMore(g, Next(g, s, acts[0]), acts[1..], a);
    }
  }

  /** `acts` can run from boot and leads to `t`. */
  ghost predicate Leads(g: Geometry, d: Disk, n: nat, acts: seq<Action>, t: State) {
    Inv(g, Initial(d, n)) && CanRun(g, Initial(d, n), acts) && Run(g, Initial(d, n), acts) == t
  }

  lemma LeadsOn(g: Geometry, d: Disk, n: nat, acts: seq<Action>, s: State, a: Action)
    requires Leads(g, d, n, acts, s) && Inv(g, s) && Enabled(g, s, a)
    ensures Leads(g, d, n, acts + [a], Next(g, s, a)) && Inv(g, Next(g, s, a))
  {
    hide Inv, Enabled, Next;
    RunMore(g, Initial(d, n), acts, a);
    NextInv(g, s, a);
  }

  lemma Open(a: Slot, b: Slot, n: nat)
    requires n >= 1
    ensures Outstanding(Slots(a, b, n)) == One(a) + if n == 1 then 0 else One(b)
  {
    var q := Slots(a, b, n);
    if n == 1 {
      assert q[1..] == [];
    } else {
      var idle := seq(n - 2, _ => Idle);
      AllIdle(idle);
      assert q[1..][0] == b && q[1..][1..] == idle;
      assert Outstanding(q[1..]) == One(b);
    }
  }

  lemma BothBegin(g: Geometry, d: Disk, n: nat, base: nat, data: Block)
    requires n >= 1 && Booted(g, d)
    ensures Leads(g, d, n, Acts(n, base, 0, data), After(d, n, base, 0, data)) && Inv(g, After(d, n, base, 0, data))
  {
    hide Inv, Outstanding;
    InitialInv(g, d, n);
    var s0, ten := Initial(d, n), Active(10);
    Open(Idle, Idle, n);
    Open(ten, Idle, n);
    assert s0.slots == Slots(Idle, Idle, n);
    LeadsOn(g, d, n, [], s0, Begin(0));
    var s1 := Next(g, s0, Begin(0));
    assert [] + [Begin(0)] == [Begin(0)];
    assert s1.slots == Slots(ten, Idle, n);
    if n >= 2 {
      LeadsOn(g, d, n, [Begin(0)], s1, Begin(1));
      assert [Begin(0)] + [Begin(1)] == [Begin(0), Begin(1)];
      assert Next(g, s1, Begin(1)).slots == Slots(ten, ten, n);
    } else {
      assert s1.slots == Slots(ten, ten, n);
    }
  }

  /** The state when block `j` is about to be logged. */
  function Before(d: Disk, n: nat, base: nat, j: nat, data: Block): State
    requires n >= 1
  {
    var s := After(d, n, base, j, data);
    if j == 10 then s.(slots := Slots(Active(10), Active(10), n)) else s
  }

  /** The first process ends its operation and begins another; the second keeps the commit off. */
  lemma Again(g: Geometry, d: Disk, n: nat, base: nat, data: Block, acts: seq<Action>)
    requires n >= 2 && Leads(g, d, n, acts, After(d, n, base, 10, data)) && Inv(g, After(d, n, base, 10, data))
    ensures Leads(g, d, n, acts + [End(0), Begin(0)], Before(d, n, base, 10, data))
    ensures Inv(g, Before(d, n, base, 10, data))
  {
    hide Inv, Outstanding, Leads, Buffers;
    var s, ten := After(d, n, base, 10, data), Active(10);
    Open(Idle, ten, n);
    assert s.slots[0 := Idle] == Slots(Idle, ten, n);
    LeadsOn(g, d, n, acts, s, End(0));
    var t := Next(g, s, End(0));
    assert t.slots == Slots(Idle, ten, n) && t.phase == Running;
    LeadsOn(g, d, n, acts + [End(0)], t, Begin(0));
    assert acts + [End(0)] + [Begin(0)] == acts + [End(0), Begin(0)];
    assert Next(g, t, Begin(0)).slots == Slots(ten, ten, n);
  }

  lemma LogOne(g: Geometry, d: Disk, n: nat, base: nat, j: nat, data: Block)
    requires n >= 1 && j < g.size - 1 && j < LOGSIZE && (j < 10 || n >= 2) && Homes(g, d, base)
    ensures var s, a := Before(d, n, base, j, data), Update(if j < 20 then 0 else 1, base + j, data);
      Enabled(g, s, a) && (Inv(g, s) ==> Next(g, s, a) == After(d, n, base, j + 1, data))
  {
    hide Inv;
    var s := Before(d, n, base, j, data);
    var p := if j < 20 then 0 else 1;
    assert s.slots[p].left > 0 && base + j !in s.lh;
    assert s.slots[p := Active(s.slots[p].left - 1)] == After(d, n, base, j + 1, data).slots;
  }

  /** Two processes can bring the log to any number of entries it has room for, one to ten. */
  lemma {:induction false} Reaches(g: Geometry, d: Disk, n: nat, base: nat, j: nat, data: Block)
    requires n >= 1 && Booted(g, d) && j <= Cap(g) && (j <= 10 || n >= 2) && Homes(g, d, base)
    ensures Leads(g, d, n, Acts(n, base, j, data), After(d, n, base, j, data)) && Inv(g, After(d, n, base, j, data))
  {
    hide Inv, Enabled, Next, After, Leads;
    if j == 0 {
      BothBegin(g, d, n, base, data);
    } else {
      Reaches(g, d, n, base, j - 1, data);
      var acts := Acts(n, base, j - 1, data);
      if j == 11 { Again(g, d, n, base, data, acts); }
      LogOne(g, d, n, base, j - 1, data);
      var first := if j == 11 then acts + [End(0), Begin(0)] else acts;
      var a := Update(if j - 1 < 20 then 0 else 1, base + j - 1, data);
      LeadsOn(g, d, n, first, Before(d, n, base, j - 1, data), a);
      assert first + [a] == acts + Turn(base, j - 1, data);
    }
  }

  // ---- when a panic can be reached ----

  /** Some run of `n` processes from boot ends where a log_write within budget panics, with `added`
      on a block that is not logged. */
  ghost predicate PanicReachable(g: Geometry, d: Disk, n: nat, added: bool)
    requires Booted(g, d)
  {
    exists acts, t, p: nat, b ::
      Leads(g, d, n, acts, t) && WithinBudget(g, t, p, b) && Full(g, t) && (added ==> b !in t.lh)
  }

  /** With one process no other operation keeps the commit off, so a run logs ten blocks at most. */
  ghost predicate Lone(s: State) {
    |s.slots| == 1 &&
    (s.phase.Running? ==> if s.slots[0].Active? then |s.lh| + s.slots[0].left <= MAXOPBLOCKS else s.lh == [])
  }

  lemma LoneNext(g: Geometry, s: State, a: Action)
    requires Inv(g, s) && Enabled(g, s, a) && Lone(s)
    ensures Lone(Next(g, s, a))
  {
    hide Inv, View, Install, Seen, Pins;
    if a.End? {
      assert s.slots[0 := Idle] == [Idle];
      AllIdle([Idle]);
    }
    if a.Write? { WriteKeepsSlots(g, s); }
  }

  lemma WriteKeepsSlots(g: Geometry, s: State)
    requires Inv(g, s) && !s.phase.Running?
    ensures var t := WriteStep(g, s); t.slots == s.slots && (t.phase.Running? ==> t.lh == [])
    ensures Outstanding(s.slots) == 0
  {
    hide Coherent, PhaseOk, View, Seen;
  }

  lemma {:induction false} LoneRun(g: Geometry, s: State, acts: seq<Action>)
    requires Inv(g, s) && CanRun(g, s, acts) && Lone(s)
    ensures Lone(Run(g, s, acts))
    decreases |acts|
  {
    hide Inv, Enabled, Next, Lone;
    if acts != [] {
      NextInv(g, s, acts[0]);
      LoneNext(g, s, acts[0]);
      LoneRun(g, Next(g, s, acts[0]), acts[1..]);
    }
  }

  /** The largest log area for which a panic can be reached. */
  function Bound(n: nat, added: bool): int {
    if n == 0 then 0 else if n == 1 then (if added then MAXOPBLOCKS else MAXOPBLOCKS + 1) else LOGSIZE
  }

  /** Is a panic to be expected at all? */
  predicate Expected(g: Geometry, n: nat, added: bool) { g.size <= Bound(n, added) || (n >= 2 && !added) }

  lemma Panics(g: Geometry, d: Disk, n: nat, base: nat, added: bool)
    requires Booted(g, d) && Homes(g, d, base) && Expected(g, n, added)
    ensures PanicReachable(g, d, n, added)
  {
    hide Inv, Leads, Buffers;
    var j, data: Block := Cap(g), seq(WORDS, _ => 0);
    Reaches(g, d, n, base, j, data);
    var t := After(d, n, base, j, data);
    var p := if n == 1 then 0 else 1;
    var b := if t.slots[p].left > 0 && j < LOGSIZE then base + j else base;
    assert Leads(g, d, n, Acts(n, base, j, data), t);
    assert t.slots[p].left == 0 ==> t.lh[0] == base;
    assert WithinBudget(g, t, p, b) && Full(g, t) && (added ==> b !in t.lh);
  }

  lemma NoPanic(g: Geometry, d: Disk, n: nat, added: bool, acts: seq<Action>, t: State, p: nat, b: int)
    requires Booted(g, d) && !Expected(g, n, added) && Leads(g, d, n, acts, t) && WithinBudget(g, t, p, b)
    requires added ==> b !in t.lh
    ensures !Full(g, t)
  {
    hide Inv;
    RefusedExactly(g, t, p, b);
    if n == 1 {
      assert Initial(d, n).slots == [Idle];
      LoneRun(g, Initial(d, n), acts);
    }
    if n == 0 { NoSlots(g, Initial(d, n), acts); }
  }

  lemma {:induction false} NoSlots(g: Geometry, s: State, acts: seq<Action>)
    requires Inv(g, s) && CanRun(g, s, acts) && s.slots == []
    ensures Run(g, s, acts).slots == []
    decreases |acts|
  {
    hide Inv, View, Install, Seen, Pins, WriteStep;
    if acts != [] {
      NextInv(g, s, acts[0]);
      if acts[0].Write? { WriteKeepsSlots(g, s); }
      NoSlots(g, Next(g, s, acts[0]), acts[1..]);
    }
  }

  lemma PanicIff(g: Geometry, d: Disk, n: nat, base: nat, added: bool)
    requires Booted(g, d) && Homes(g, d, base)
    ensures PanicReachable(g, d, n, added) <==> Expected(g, n, added)
  {
    hide Leads, WithinBudget, Expected, Booted;
    if Expected(g, n, added) {
      Panics(g, d, n, base, added);
    } else {
      forall acts, t, p: nat, b | Leads(g, d, n, acts, t) && WithinBudget(g, t, p, b) && (added ==> b !in t.lh)
        ensures !Full(g, t)
      {
        NoPanic(g, d, n, added, acts, t, p, b);
      }
    }
  }

  /** From two processes on, operations that keep to their budgets can meet log_write's panic however
      large the log area is; one process alone can exactly if it has no more than eleven blocks. */
  lemma WithinBudgetPanics(g: Geometry, d: Disk, n: nat, base: nat)
    requires Booted(g, d) && Homes(g, d, base)
    ensures PanicReachable(g, d, n, false) <==> n >= 2 || (n == 1 && g.size <= MAXOPBLOCKS + 1)
  {
    PanicIff(g, d, n, base, false);
  }

  /** They can meet it with a block that is new exactly if the log area, header included, has no more
      than LOGSIZE blocks, as mkfs makes it, or for one process no more than MAXOPBLOCKS. */
  lemma FreshAppendPanics(g: Geometry, d: Disk, n: nat, base: nat)
    requires Booted(g, d) && Homes(g, d, base)
    ensures PanicReachable(g, d, n, true)
            <==> (n >= 2 && g.size <= LOGSIZE) || (n == 1 && g.size <= MAXOPBLOCKS)
  {
    PanicIff(g, d, n, base, true);
  }
}
