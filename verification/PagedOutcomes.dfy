/** When each paging operation succeeds, and what follows over every run: how a call ends is told by
    the lists before it, so a whole run is told by flat memory and what kalloc had to give. */
module PagedOutcomes {
  import opened RiscV
  import opened SwapModel
  import opened SwapOps
  import opened UserMemory
  import opened Fork
  import opened Teardown
  import opened Forecast
  import opened PagedRuns

  /** kalloc has a frame to give. */
  predicate HasFrame(s: State) { s.free != [] || !CannotEvict(s) }

  /** The table pages that `root` lacks on the way to the trampoline. */
  function TopCost(g: Glance, root: nat): nat { TableCost(g, Mid(Top(root))) + TableCost(g, Low(Top(root))) }

  /** What it takes for a call to succeed, in terms of the pages users see, of what is present, of the
      counts of free frames and slots, and of which table pages exist. */
  ghost predicate Succeeds(s: State, op: Op) {
    match op
    case Touch(k) => k in s.ptes && s.ptes[k].v
    case Write(k, _, _) => k in Memory(s) && Memory(s)[k].w && Memory(s)[k].u && (s.ptes[k].v || HasFrame(s))
    case Reclaim => !CannotEvict(s)
    case Grow(root, a, b, _, _) => b <= a || Enough(Look(s), root, a, b)
    case Duplicate(_, child, n) => Enough(Look(s), child, 0, n)
    case Create => HasFrame(s)
    case MapTop(root) => Affords(Look(s), TopCost(Look(s), root))
    case Take => HasFrame(s)
    case _ => true
  }

  lemma TwoTables(g: Glance, t: TKey, u: TKey)
    requires t != u
    ensures var m := TakeTable(g, t);
      m.ok && TakeTable(m.g, u).ok <==> Affords(g, TableCost(g, t) + TableCost(g, u))
  {
    hide TakeTable;
    TakeTableCost(g, t);
    TakeTableCost(TakeTable(g, t).g, u);
  }

  /** walk to the trampoline succeeds exactly when kalloc can give the missing table pages. */
  lemma TopSucceeds(s: State, root: nat)
    requires Inv(s) && Root(root) in s.tables
    ensures Walk(s, Top(root)).ok <==> Affords(Look(s), TopCost(Look(s), root))
  {
    hide Inv, Memory, Outs, Ensure, TakeTable, Look, Affords, TableCost, KeepsOuts;
    var k := Top(root);
    WalkQuiet(s, k);
    TableLook(s, Mid(k));
    var m := Ensure(s, Mid(k));
    if m.ok { TableLook(m.s, Low(k)); }
    TwoTables(Look(s), Mid(k), Low(k));
  }

  lemma GrowSucceeds(s: State, root: nat, a: nat, b: nat, w: bool, x: bool)
    requires Inv(s) && Root(root) in s.tables && Range(root, a, b) !! Memory(s).Keys
    ensures Range(root, a, a) <= Memory(s).Keys
    ensures UvmAlloc(s, root, a, a, b, w, x).ok <==> b <= a || Enough(Look(s), root, a, b)
  {
    hide Inv, Memory, Look, Enough;
    if a < b { GrowForetold(s, root, a, a, b, w, x); }
  }

  /** A call succeeds exactly when the state before it says so. */
  lemma StepSucceeds(s: State, op: Op)
    requires Inv(s) && Legal(s, op)
    ensures Step(s, op).ok <==> Succeeds(s, op)
  {
    hide Inv, Memory, SwapOut, Kalloc, Kfree, UvmAlloc, UvmUnmap, UvmCopy, UvmFree, Walk, Range, CreateIn, WritePage,
         TouchPage, CannotEvict, Look, Enough, Affords, TopCost, CanCopy, CanFree;
    MemoryKeys(s);
    if op.Grow? { GrowSucceeds(s, op.root, op.a, op.b, op.w, op.x); }
    if op.Duplicate? { ForkSucceeds(s, op.parent, op.child, op.n); }
    if op.MapTop? { TopSucceeds(s, op.root); }
  }

  /** What the calls that users cannot see do: kalloc and kfree lend a frame and take it back, uvmcreate
      makes a page table, proc_pagetable makes the tables of the trampoline, uvmfree leaves none. */
  lemma StepEffects(s: State, op: Op)
    requires Inv(s) && Legal(s, op)
    ensures var r := Step(s, op);
      && (op.Take? && r.ok ==> exists f: nat :: f !in Outs(s) && Outs(r.s) == Outs(s) + {f})
      && (op.Give? ==> op.f in Outs(s) && Outs(r.s) == Outs(s) - {op.f})
      && (op.Create? && r.ok ==> exists f: nat {:trigger Root(f)} :: Root(f) !in s.tables && Root(f) in r.s.tables)
      && (op.MapTop? && r.ok ==> Walks(r.s.tables, Top(op.root)))
      && (op.Destroy? ==> Root(op.root) !in r.s.tables)
      && (op.Reclaim? && r.ok ==> |r.s.free| == |s.free| + 1)
      && (op.Touch? && r.ok ==> op.k in s.ptes && Hot(r.s, s.ptes[op.k].ppn))
  {
    hide Inv, Memory, Outs, SwapOut, Kalloc, Kfree, UvmAlloc, UvmUnmap, UvmCopy, UvmFree, Walk, CreateIn, WritePage,
         TouchPage, CannotEvict, Range, CanCopy, CanFree;
    match op
    case Create => var f: nat := Kalloc(s).frame; assert Root(f) !in s.tables || !Step(s, op).ok;
    case Give(f) => assert Step(s, op).s == Kfree(s, f);
    case _ =>
  }

  /** Over any run, the `i`-th call succeeds exactly when the state the run has reached says so. */
  lemma {:induction false} RunSucceeds(s: State, ops: seq<Op>, i: nat)
    requires Inv(s) && LegalRun(s, ops) && i < |ops|
    ensures LegalRun(s, ops[..i]) && Legal(Run(s, ops[..i]), ops[i])
    ensures Outcomes(s, ops)[i].ok <==> Succeeds(Run(s, ops[..i]), ops[i])
    decreases |ops|
  {
    hide Inv, Step, Legal, Succeeds;
    if i == 0 {
      StepSucceeds(s, ops[0]);
    } else {
      RunSucceeds(Step(s, ops[0]).s, ops[1..], i - 1);
      assert ops[..i][1..] == ops[1..][..i - 1];
    }
  }

  /** In any run, a store to a page the program has and may write fails only when the page is out
      and kalloc has nothing to bring it into. */
  lemma StoresFailForMemory(s: State, ops: seq<Op>, i: nat)
    requires Inv(s) && LegalRun(s, ops) && i < |ops| && ops[i].Write?
    ensures LegalRun(s, ops[..i])
    ensures var t, k := Run(s, ops[..i]), ops[i].k;
      k in Memory(t) && Memory(t)[k].w && Memory(t)[k].u ==>
        (Outcomes(s, ops)[i].ok <==> (k in t.ptes && t.ptes[k].v) || HasFrame(t))
  {
    hide Inv, Memory, Legal, Step, LegalRun, Run, Outcomes, HasFrame;
    RunSucceeds(s, ops, i);
    MemoryKeys(Run(s, ops[..i]));
  }
}
