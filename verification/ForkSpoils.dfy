/** A run from boot, on any machine with nineteen frames or more, after which fork gives the child
    a page of fives for whatever the parent's page holds. */
module ForkSpoils {
  import opened RiscV
  import opened SwapModel
  import opened SwapOps
  import opened UserMemory
  import opened Clock
  import opened Fork
  import opened Forecast
  import opened PagedRuns

  // ---- single steps with frames to spare ----

  lemma {:induction false} RunCons(s: State, op: Op, ops: seq<Op>)
    requires Inv(s) && Legal(s, op) && LegalRun(Step(s, op).s, ops)
    ensures LegalRun(s, [op] + ops) && Run(s, [op] + ops) == Run(Step(s, op).s, ops)
  {
    hide Inv, Step, Legal;
    assert ([op] + ops)[1..] == ops;
  }

  lemma TakeStep(s: State)
    requires Inv(s) && s.free != []
    ensures var t := Step(s, Take).s;
      t == Kalloc(s).s && Look(t) == Look(s).(free := |s.free| - 1) && Memory(t) == Memory(s)
  {
    hide Inv, Memory, Outs, Kalloc;
    TakeLook(s);
  }

  lemma CreateStep(s: State)
    requires Inv(s) && s.free != []
    ensures var t, root := Step(s, Create).s, Kalloc(s).frame;
      && Root(root) !in s.tables && Memory(t) == Memory(s)
      && Look(t) == Look(s).(free := |s.free| - 1, tables := s.tables.Keys + {Root(root)})
  {
    hide Inv, Memory, Outs, Kalloc;
    TakeLook(s);
    RootFresh(Kalloc(s).s, Kalloc(s).frame);
  }

  /** Mapping trampoline and trapframe in a fresh page table takes two table pages. */
  lemma TopStep(s: State, root: nat)
    requires Inv(s) && |s.free| >= 2 && Root(root) in s.tables
    requires Mid(Top(root)) !in s.tables && Low(Top(root)) !in s.tables
    ensures var t := Step(s, MapTop(root)).s;
      && Memory(t) == Memory(s)
      && Look(t) == Look(s).(free := |s.free| - 2, tables := s.tables.Keys + {Mid(Top(root)), Low(Top(root))})
  {
    hide Inv, Memory, Outs, Ensure, Look, KeepsOuts;
    var k := Top(root);
    LookIs(s);
    WalkQuiet(s, k);
    TableLook(s, Mid(k));
    var m := Ensure(s, Mid(k));
    TableLook(m.s, Low(k));
    assert Mid(k) != Low(k);
    assert s.tables.Keys + {Mid(k)} + {Low(k)} == s.tables.Keys + {Mid(k), Low(k)};
  }

  lemma ListedLook(g: Glance, k: Key)
    requires g.free >= RoundCost(g, k) && k !in g.hot
    ensures ListPage(TakeFrame(g).g, k, false)
            == Turn(Glance(g.free - RoundCost(g, k), g.slots, g.ring + [k], g.hot, g.tables + {Mid(k), Low(k)}),
                    true, [])
  {
    assert g.hot - {k} == g.hot;
    if Mid(k) in g.tables { assert g.tables + {Mid(k)} == g.tables; }
    if Low(k) in g.tables { assert g.tables + {Mid(k), Low(k)} == g.tables + {Mid(k)}; }
    assert g.tables + {Mid(k)} + {Low(k)} == g.tables + {Mid(k), Low(k)};
  }

  /** uvmalloc of one page. */
  lemma GrowStep(s: State, k: Key)
    requires Inv(s) && Root(k.root) in s.tables && k !in Memory(s) && |s.free| >= RoundCost(Look(s), k)
    ensures Legal(s, Grow(k.root, k.vpn, k.vpn + 1, true, false))
    ensures var t := Step(s, Grow(k.root, k.vpn, k.vpn + 1, true, false)).s;
      && Memory(t) == Memory(s)[k := ZeroPage(true, false)]
      && Look(t) == Glance(|s.free| - RoundCost(Look(s), k), Look(s).slots, Look(s).ring + [k], Look(s).hot,
                           s.tables.Keys + {Mid(k), Low(k)})
  {
    hide Inv, Memory, Outs, AllocPage, TakeFrame, ListPage, UvmAlloc, Range, Zeros, Step;
    OneKey(k);
    GrowLook(s, k);
    MemoryKeys(s);
    ListedLook(Look(s), k);
    GrowOne(s, k);
  }

  lemma OneKey(k: Key)
    ensures Range(k.root, k.vpn, k.vpn) == {} && Range(k.root, k.vpn, k.vpn + 1) == {k}
  {
    assert Key(k.root, k.vpn) == k;
  }

  lemma GrowOne(s: State, k: Key)
    requires Inv(s) && k !in Memory(s) && Root(k.root) in s.tables
    requires Legal(s, Grow(k.root, k.vpn, k.vpn + 1, true, false))
    ensures AllocPage(s, k, true, false).ok ==>
      Step(s, Grow(k.root, k.vpn, k.vpn + 1, true, false)) == Clean(AllocPage(s, k, true, false))
  {
    hide Inv, Memory, Outs, AllocPage, UvmUnmap, Zeros, Range;
    OneKey(k);
    assert Key(k.root, k.vpn) == k;
    MoreZeros(Memory(s), k.root, k.vpn, k.vpn, k.vpn + 1, true, false);
    var d := AllocPage(s, k, true, false);
    if d.ok {
      assert UvmAlloc(d.s, k.root, k.vpn, k.vpn + 1, k.vpn + 1, true, false) == d;
      assert UvmAlloc(s, k.root, k.vpn, k.vpn, k.vpn + 1, true, false) == d;
    }
  }

  lemma GrowLook(s: State, k: Key)
    requires Inv(s) && Root(k.root) in s.tables && k !in Memory(s) && s.free != []
    ensures var d, t := AllocPage(s, k, true, false), ListPage(TakeFrame(Look(s)).g, k, false);
      d.ok == t.ok && (d.ok ==> Look(d.s) == t.g)
  {
    hide Inv, Memory, Outs, Install, TakeFrame, ListPage, Kalloc;
    var a := Kalloc(s);
    TakeLook(s);
    MemoryKeys(s);
    MemoryKeys(a.s);
    InstallLook(a.s, k, UserPte(a.frame, true, false), Filled(0));
  }

  /** A store to a writable page on the ring. */
  lemma WriteStep(s: State, k: Key, data: Page)
    requires Inv(s) && k in Look(s).ring && k in Memory(s) && Memory(s)[k].w && Memory(s)[k].u
    ensures var t := Step(s, Write(k, 0, data)).s;
      Look(t) == Look(s) && Memory(t) == Memory(s)[k := Memory(s)[k].(data := data)]
  {
    hide Inv, Memory, Outs;
    RingKeys(s);
    MemoryAt(s, k);
    var i :| 0 <= i < |s.ring| && Keys(s, s.ring)[i] == k;
    assert s.ring[i] in s.ring;
    assert Patch(Memory(s)[k].data, 0, data) == data;
  }

  // ---- the run ----

  ghost predicate Stage(s: State, g: Glance, m: map<Key, UserPage>) {
    Inv(s) && Look(s) == g && Memory(s) == m
  }

  lemma CreateStage(s: State, g: Glance, m: map<Key, UserPage>)
    requires Stage(s, g, m) && g.free > 0
    ensures Inv(s) && Legal(s, Create) && Root(Kalloc(s).frame) !in g.tables
    ensures Stage(Step(s, Create).s, g.(free := g.free - 1, tables := g.tables + {Root(Kalloc(s).frame)}), m)
  {
    hide Inv, Memory, Outs, Kalloc, Look, Step;
    LookIs(s);
    CreateStep(s);
  }

  lemma GrowStage(s: State, g: Glance, m: map<Key, UserPage>, k: Key)
    requires Stage(s, g, m) && Root(k.root) in g.tables && k !in m && g.free >= RoundCost(g, k)
    ensures Inv(s) && Legal(s, Grow(k.root, k.vpn, k.vpn + 1, true, false))
    ensures Stage(Step(s, Grow(k.root, k.vpn, k.vpn + 1, true, false)).s,
                  Glance(g.free - RoundCost(g, k), g.slots, g.ring + [k], g.hot, g.tables + {Mid(k), Low(k)}),
                  m[k := ZeroPage(true, false)])
  {
    hide Inv, Memory, Outs, Look, Step, Legal, RoundCost;
    LookIs(s);
    GrowStep(s, k);
  }

  lemma WriteStage(s: State, g: Glance, m: map<Key, UserPage>, k: Key, data: Page)
    requires Stage(s, g, m) && k in g.ring && k in m && m[k].w && m[k].u
    ensures Inv(s) && Legal(s, Write(k, 0, data))
    ensures Stage(Step(s, Write(k, 0, data)).s, g, m[k := m[k].(data := data)])
  {
    hide Inv, Memory, Look, Step;
    WriteStep(s, k, data);
  }

  lemma TopStage(s: State, g: Glance, m: map<Key, UserPage>, root: nat)
    requires Stage(s, g, m) && g.free >= 2 && Root(root) in g.tables
    requires Mid(Top(root)) !in g.tables && Low(Top(root)) !in g.tables
    ensures Inv(s) && Legal(s, MapTop(root))
    ensures Stage(Step(s, MapTop(root)).s,
                  g.(free := g.free - 2, tables := g.tables + {Mid(Top(root)), Low(Top(root))}), m)
  {
    hide Inv, Memory, Look, Step;
    LookIs(s);
    TopStep(s, root);
  }

  /** The page table proc_pagetable makes. */
  function Fresh(root: nat): set<TKey> { {Root(root), Mid(Top(root)), Low(Top(root))} }

  /** The same with tables for the first pages of user memory. */
  function TablesOf(root: nat): set<TKey> { Fresh(root) + {TKey(root, 1, 0), TKey(root, 0, 0)} }

  const Zero: UserPage := ZeroPage(true, false)

  /** uvmcreate and proc_pagetable: a process with no user memory. */
  lemma NewProcess(s: State, g: Glance, m: map<Key, UserPage>, others: set<nat>) returns (root: nat, t: State)
    requires Stage(s, g, m) && g.free >= 3
    requires (forall r :: r in others ==> Root(r) in g.tables) && (forall u :: u in g.tables ==> u.root in others)
    ensures Inv(s) && root !in others && LegalRun(s, [Create, MapTop(root)]) && t == Run(s, [Create, MapTop(root)])
    ensures Stage(t, g.(free := g.free - 3, tables := g.tables + Fresh(root)), m)
  {
    hide Inv, Memory, Look, Step, Legal, Stage, Kalloc, Mid, Low;
    CreateStage(s, g, m);
    root := Kalloc(s).frame;
    var u, h := Step(s, Create).s, g.(free := g.free - 1, tables := g.tables + {Root(root)});
    TopApart(root);
    TopStage(u, h, m, root);
    t := Step(u, MapTop(root)).s;
    assert h.tables + {Mid(Top(root)), Low(Top(root))} == g.tables + Fresh(root);
    assert Run(t, []) == t;
    RunCons(u, MapTop(root), []);
    RunCons(s, Create, [MapTop(root)] + []);
    assert [Create] + ([MapTop(root)] + []) == [Create, MapTop(root)];
  }

  lemma TopApart(root: nat)
    ensures Mid(Top(root)).root == Low(Top(root)).root == root
    ensures Mid(Top(root)) != Root(root) && Low(Top(root)) != Root(root)
    ensures Mid(Top(root)) == TKey(root, 1, 255) && Low(Top(root)) == TKey(root, 0, 0x1_FFFF)
  {}

  lemma {:induction false} RunTwice(s: State, a: seq<Op>, b: seq<Op>)
    requires Inv(s) && LegalRun(s, a) && LegalRun(Run(s, a), b)
    ensures LegalRun(s, a + b) && Run(s, a + b) == Run(Run(s, a), b)
    decreases |a|
  {
    hide Inv, Step, Legal;
    if a == [] {
      assert a + b == b;
    } else {
      assert (a + b)[0] == a[0] && (a + b)[1..] == a[1..] + b;
      RunTwice(Step(s, a[0]).s, a[1..], b);
    }
  }

  /** One page of `parent`, two of another process, a fresh `child`, and no frame free. */
  ghost predicate Crowded(s: State, parent: nat, other: nat, child: nat, data: Page) {
    && parent != other && parent != child && other != child
    && Stage(s, Glance(0, NSLOTS, [Key(parent, 0), Key(other, 0), Key(other, 1)], {},
                       TablesOf(parent) + TablesOf(other) + Fresh(child)),
             map[Key(parent, 0) := Zero.(data := data), Key(other, 0) := Zero, Key(other, 1) := Zero])
  }

  lemma CrowdLast(s: State, parent: nat, other: nat, data: Page) returns (ops: seq<Op>, child: nat)
    requires parent != other
    requires Stage(s, Glance(3, NSLOTS, [Key(parent, 0), Key(other, 0), Key(other, 1)], {},
                             TablesOf(parent) + TablesOf(other)),
                   map[Key(parent, 0) := Zero, Key(other, 0) := Zero, Key(other, 1) := Zero])
    ensures Inv(s) && LegalRun(s, ops) && Crowded(Run(s, ops), parent, other, child, data)
  {
    hide Inv, Memory, Look, Step, Legal, Stage, LegalRun, Run;
    var k, m := Key(parent, 0), map[Key(parent, 0) := Zero, Key(other, 0) := Zero, Key(other, 1) := Zero];
    var g := Glance(3, NSLOTS, [k, Key(other, 0), Key(other, 1)], {}, TablesOf(parent) + TablesOf(other));
    var t;
    child, t := NewProcess(s, g, m, {parent, other});
    var write := Write(k, 0, data);
    WriteStage(t, g.(free := 0, tables := g.tables + Fresh(child)), m, k, data);
    var u := Step(t, write).s;
    assert m[k := Zero.(data := data)] == map[k := Zero.(data := data), Key(other, 0) := Zero, Key(other, 1) := Zero];
    RunOne(t, write);
    RunTwice(s, [Create, MapTop(child)], [write]);
    ops := [Create, MapTop(child)] + [write];
  }

  lemma RunOne(s: State, op: Op)
    requires Inv(s) && Legal(s, op)
    ensures LegalRun(s, [op]) && Run(s, [op]) == Step(s, op).s
  {
    hide Inv, Step, Legal;
    var t := Step(s, op).s;
    assert LegalRun(t, []) && Run(t, []) == t;
    RunCons(s, op, []);
    assert [op] + [] == [op];
  }

  lemma CrowdOther(s: State, parent: nat, other: nat, data: Page) returns (ops: seq<Op>, child: nat)
    requires parent != other
    requires Stage(s, Glance(7, NSLOTS, [Key(parent, 0)], {}, TablesOf(parent) + Fresh(other)),
                   map[Key(parent, 0) := Zero])
    ensures Inv(s) && LegalRun(s, ops) && Crowded(Run(s, ops), parent, other, child, data)
  {
    hide Inv, Memory, Look, Step, Legal, Stage, Crowded;
    var k0, k1 := Key(other, 0), Key(other, 1);
    var grow0, grow1 := Grow(other, 0, 1, true, false), Grow(other, 1, 2, true, false);
    var g := Glance(7, NSLOTS, [Key(parent, 0)], {}, TablesOf(parent) + Fresh(other));
    TopApart(other);
    GrowStage(s, g, map[Key(parent, 0) := Zero], k0);
    var t := Step(s, grow0).s;
    var g1 := Glance(4, NSLOTS, [Key(parent, 0), k0], {}, TablesOf(parent) + TablesOf(other));
    assert [Key(parent, 0)] + [k0] == [Key(parent, 0), k0];
    assert g.tables + {Mid(k0), Low(k0)} == g1.tables;
    GrowStage(t, g1, map[Key(parent, 0) := Zero, k0 := Zero], k1);
    var u := Step(t, grow1).s;
    assert [Key(parent, 0), k0] + [k1] == [Key(parent, 0), k0, k1];
    assert g1.tables + {Mid(k1), Low(k1)} == g1.tables;
    ops, child := CrowdLast(u, parent, other, data);
    RunCons(t, grow1, ops);
    RunCons(s, grow0, [grow1] + ops);
    ops := [grow0] + ([grow1] + ops);
  }

  lemma CrowdSecond(s: State, parent: nat, data: Page) returns (ops: seq<Op>, other: nat, child: nat)
    requires Stage(s, Glance(10, NSLOTS, [Key(parent, 0)], {}, TablesOf(parent)), map[Key(parent, 0) := Zero])
    ensures Inv(s) && LegalRun(s, ops) && Crowded(Run(s, ops), parent, other, child, data)
  {
    hide Inv, Memory, Look, Step, Legal, Stage, Crowded, LegalRun, Run;
    var g := Glance(10, NSLOTS, [Key(parent, 0)], {}, TablesOf(parent));
    TopApart(parent);
    var t;
    other, t := NewProcess(s, g, map[Key(parent, 0) := Zero], {parent});
    ops, child := CrowdOther(t, parent, other, data);
    RunTwice(s, [Create, MapTop(other)], ops);
    ops := [Create, MapTop(other)] + ops;
  }

  lemma CrowdSixteen(s: State, data: Page) returns (ops: seq<Op>, parent: nat, other: nat, child: nat)
    requires Stage(s, Glance(16, NSLOTS, [], {}, {}), map[])
    ensures Inv(s) && LegalRun(s, ops) && Crowded(Run(s, ops), parent, other, child, data)
  {
    hide Inv, Memory, Look, Step, Legal, Stage, Crowded, LegalRun, Run;
    var t;
    parent, t := NewProcess(s, Glance(16, NSLOTS, [], {}, {}), map[], {});
    var grow, k := Grow(parent, 0, 1, true, false), Key(parent, 0);
    assert {} + Fresh(parent) == Fresh(parent);
    var g := Glance(13, NSLOTS, [], {}, Fresh(parent));
    TopApart(parent);
    GrowStage(t, g, map[], k);
    var u := Step(t, grow).s;
    assert [] + [k] == [k] && g.tables + {Mid(k), Low(k)} == TablesOf(parent);
    ops, other, child := CrowdSecond(u, parent, data);
    RunCons(t, grow, ops);
    RunTwice(s, [Create, MapTop(parent)], [grow] + ops);
    ops := [Create, MapTop(parent)] + ([grow] + ops);
  }

  /** Other kallocs use up the rest of memory; among them are those for the three trapframes. */
  lemma {:induction false} Crowd(s: State, n: nat, data: Page)
    returns (ops: seq<Op>, parent: nat, other: nat, child: nat)
    requires n >= 16 && Stage(s, Glance(n, NSLOTS, [], {}, {}), map[])
    ensures Inv(s) && LegalRun(s, ops) && Crowded(Run(s, ops), parent, other, child, data)
    decreases n
  {
    hide Inv, Memory, Look, Step, Crowded, Kalloc;
    if n == 16 {
      ops, parent, other, child := CrowdSixteen(s, data);
    } else {
      LookIs(s);
      TakeStep(s);
      ops, parent, other, child := Crowd(Step(s, Take).s, n - 1, data);
      RunCons(s, Take, ops);
      ops := [Take] + ops;
    }
  }

  /** A crowded machine is ready to fork, and the parent's page is the next victim. */
  lemma CrowdedCopies(s: State, parent: nat, other: nat, child: nat, data: Page)
    requires Crowded(s, parent, other, child, data)
    ensures CanCopy(s, parent, child, 0, 1)
    ensures Key(parent, 0) in Memory(s) && Memory(s)[Key(parent, 0)].data == data
    ensures s.free == [] && s.ring != [] && KeyAt(s, Victim(s)) == Key(parent, 0)
  {
    hide Inv, Look, Memory, Victim;
    LookIs(s);
    ScanLook(s);
    assert Range(parent, 0, 1) == {Key(parent, 0)} && Range(child, 0, 1) == {Key(child, 0)} && Range(child, 0, 0) == {};
  }

  lemma CrowdedEnough(s: State, parent: nat, other: nat, child: nat, data: Page)
    requires Crowded(s, parent, other, child, data)
    ensures Enough(Look(s), child, 0, 1)
  {
    hide Inv, Look, Memory, Needed;
    var to := Key(child, 0);
    NeededSplit(Look(s), Look(s).(tables := Look(s).tables + {Mid(to), Low(to)}), child, 0, 1);
    NoPages(Look(s).(tables := Look(s).tables + {Mid(to), Low(to)}), child, 1);
  }

  /** The fork succeeds, and the child has fives where the parent has `data`. */
  ghost predicate ForksFives(s: State, parent: nat, child: nat, data: Page) {
    && CanCopy(s, parent, child, 0, 1)
    && Key(parent, 0) in Memory(s) && Memory(s)[Key(parent, 0)].data == data
    && var r := UvmCopy(s, parent, child, 0, 1);
       && r.ok && Key(child, 0) in Memory(r.s) && Memory(r.s)[Key(child, 0)].data == Filled(5)
       && (data != Filled(5) ==> !Exact(Memory(r.s), parent, child, 1))
  }

  lemma CrowdedForks(s: State, parent: nat, other: nat, child: nat, data: Page)
    requires Crowded(s, parent, other, child, data)
    ensures ForksFives(s, parent, child, data)
  {
    hide Inv, Memory, Look, CanCopy, UvmCopy, Exact, Victim, Enough, Filled, Stage;
    CrowdedCopies(s, parent, other, child, data);
    CrowdedEnough(s, parent, other, child, data);
    ForkCopiesFives(s, parent, child, 1);
  }

  lemma BootStage(mem: map<nat, Page>, free: seq<nat>, swap: map<nat, Page>)
    requires Inv(Boot(mem, free, swap))
    ensures Stage(Boot(mem, free, swap), Glance(|free|, NSLOTS, [], {}, {}), map[])
  {
    hide Inv;
  }

  /** On any machine with nineteen frames or more some run from boot leads to a fork that succeeds
      and gives the child fives where the parent has `data`. Sixteen frames are pages and tables of
      three processes, and three more their trapframes. */
  lemma ForkSpoilsAfterBoot(mem: map<nat, Page>, free: seq<nat>, swap: map<nat, Page>, data: Page)
    returns (ops: seq<Op>, parent: nat, child: nat)
    requires Distinct(free) && SwapArea(swap) && (forall f {:trigger f in free} :: f in free <==> f in mem)
    requires |free| >= 19
    ensures Inv(Boot(mem, free, swap)) && LegalRun(Boot(mem, free, swap), ops)
    ensures ForksFives(Run(Boot(mem, free, swap), ops), parent, child, data)
  {
    hide Inv, LegalRun, Run, Stage, Boot, ForksFives, Crowded;
    BootInv(mem, free, swap);
    BootStage(mem, free, swap);
    var other;
    ops, parent, other, child := Crowd(Boot(mem, free, swap), |free|, data);
    CrowdedForks(Run(Boot(mem, free, swap), ops), parent, other, child, data);
  }
}
