/** What fork, and sbrk, will do, told before the call from what can be read off the kernel's lists:
    how many frames and swap slots are free, the eviction ring with its access bits, and
    which table pages exist. No page contents, frame numbers or slot numbers enter. */
module Forecast {
  import opened RiscV
  import opened SwapModel
  import opened SwapOps
  import opened UserMemory
  import opened Clock
  import opened Fork
  import opened Sets

  datatype Glance = Glance(
    free: nat,          // frames on the free list
    slots: nat,         // clear bits of the slot bitmap
    ring: seq<Key>,     // the pages on the eviction ring, from the hand
    hot: set<Key>,      // entries with the access bit set
    tables: set<TKey>   // table pages
  )

  /** After one kalloc, or several: what is left, and the pages evicted on the way. */
  datatype Turn = Turn(g: Glance, ok: bool, victims: seq<Key>)

  function ColdAt(ring: seq<Key>, hot: set<Key>): (k: nat)
    ensures k <= |ring|
  {
    if ring == [] || ring[0] !in hot then 0 else 1 + ColdAt(ring[1..], hot)
  }

  function Elements(q: seq<Key>): set<Key> { set k | k in q }

  /** kalloc */
  function TakeFrame(g: Glance): Turn {
    if g.free > 0 then Turn(g.(free := g.free - 1), true, []) else
    if g.ring == [] || g.slots == 0 then Turn(g, false, []) else
    var k := ColdAt(g.ring, g.hot);
    var turned := g.ring[k..] + g.ring[..k];
    Turn(g.(slots := g.slots - 1, ring := turned[1..], hot := g.hot - Elements(g.ring[..k])), true, [turned[0]])
  }

  /** One level of walk. */
  function TakeTable(g: Glance, t: TKey): Turn {
    if t in g.tables then Turn(g, true, []) else
    var a := TakeFrame(g);
    if a.ok then a.(g := a.g.(tables := a.g.tables + {t})) else a
  }

  /** mappages and lru_add; `heat` is the access bit that came with the copied flags. */
  function ListPage(g: Glance, to: Key, heat: bool): Turn {
    var m := TakeTable(g, Mid(to));
    if !m.ok then m else
    var l := TakeTable(m.g, Low(to));
    if !l.ok then l else
    Turn(l.g.(ring := l.g.ring + [to], hot := if heat then l.g.hot + {to} else l.g.hot - {to}), true, [])
  }

  /** One round of uvmalloc or uvmcopy; `victims` is what its first kalloc evicted. */
  function PageTurn(g: Glance, to: Key, heat: bool): Turn {
    var a := TakeFrame(g);
    if !a.ok then a else ListPage(a.g, to, heat).(victims := a.victims)
  }

  /** One round of uvmcopy. */
  function CopyTurn(g: Glance, from: Key, to: Key): Turn { PageTurn(g, to, from in g.hot) }

  datatype Told = Told(ok: bool, spoiled: set<nat>)

  /** uvmcopy from page `i` up to page `n`. */
  function Foretell(g: Glance, parent: nat, child: nat, i: nat, n: nat): Told
    decreases n - i
  {
    if i >= n then Told(true, {}) else
    var t := CopyTurn(g, Key(parent, i), Key(child, i));
    if !t.ok then Told(false, {}) else
    var rest := Foretell(t.g, parent, child, i + 1, n);
    if rest.ok then Told(true, rest.spoiled + if t.victims == [Key(parent, i)] then {i} else {}) else Told(false, {})
  }

  // ---- the glance at a state ----

  function KeyAt(s: State, f: nat): Key { if f in s.back then s.back[f] else Key(0, 0) }

  function Keys(s: State, q: seq<nat>): seq<Key> { seq(|q|, i requires 0 <= i < |q| => KeyAt(s, q[i])) }

  function HotKeys(s: State): set<Key> { set k | k in s.ptes && s.ptes[k].a }

  function Look(s: State): Glance {
    Glance(|s.free|, if |s.used| <= NSLOTS then NSLOTS - |s.used| else 0, Keys(s, s.ring), HotKeys(s), s.tables.Keys)
  }

  // ---- counting slots ----

  function Below(n: nat): (r: set<nat>)
    ensures |r| == n && forall i :: i in r <==> 0 <= i < n
  {
    if n == 0 then {} else Below(n - 1) + {n - 1}
  }

  /** The bitmap has no clear bit exactly when it counts NSLOTS set ones. */
  lemma SlotCount(used: set<nat>)
    requires forall i {:trigger i in used} :: i in used ==> i < NSLOTS
    ensures |used| <= NSLOTS && (FirstFree(used, 0) == NSLOTS <==> |used| == NSLOTS)
  {
    hide Below, FirstFree;
    SubsetSize(used, Below(NSLOTS));
    if FirstFree(used, 0) == NSLOTS { assert used == Below(NSLOTS); }
  }

  lemma UsedSlots(s: State)
    requires Inv(s)
    ensures |s.used| <= NSLOTS && (FirstFree(s.used, 0) == NSLOTS <==> |s.used| == NSLOTS)
  {
    forall i | i in s.used ensures i < NSLOTS { assert SlotHeld(s.owner, s.ptes, i); }
    SlotCount(s.used);
  }

  // ---- kalloc, seen from its glance ----

  lemma {:induction false} ColdSame(s: State, q: seq<nat>)
    requires forall f {:trigger f in q} :: f in q ==> f in s.back && s.back[f] in s.ptes
    ensures FirstCold(s, q) == ColdAt(Keys(s, q), HotKeys(s))
  {
    if q != [] {
      assert q[0] in q;
      assert Keys(s, q)[1..] == Keys(s, q[1..]);
      assert forall f :: f in q[1..] ==> f in q;
      ColdSame(s, q[1..]);
    }
  }

  lemma RingKeys(s: State)
    requires Inv(s)
    ensures forall f {:trigger f in s.ring} :: f in s.ring ==>
      f in s.back && s.back[f] in s.ptes && s.ptes[s.back[f]].v && s.ptes[s.back[f]].ppn == f
    ensures forall k {:trigger k in s.ptes} :: k in s.ptes && s.ptes[k].v ==>
      s.ptes[k].ppn in s.ring && s.back[s.ptes[k].ppn] == k
  {}

  /** A present page is among those the hand passed exactly when its frame is. */
  lemma PassedKey(s: State, q: seq<nat>, k: Key)
    requires Inv(s) && k in s.ptes && s.ptes[k].v && forall f {:trigger f in q} :: f in q ==> f in s.ring
    ensures k in Elements(Keys(s, q)) <==> s.ptes[k].ppn in q
  {
    RingKeys(s);
    if s.ptes[k].ppn in q {
      var i :| 0 <= i < |q| && q[i] == s.ptes[k].ppn;
      assert Keys(s, q)[i] == k;
    }
    if k in Keys(s, q) {
      var i :| 0 <= i < |q| && Keys(s, q)[i] == k;
      assert q[i] in q;
    }
  }

  lemma SwappedNotPassed(s: State, q: seq<nat>, k: Key)
    requires Inv(s) && k in s.ptes && !s.ptes[k].v && forall f {:trigger f in q} :: f in q ==> f in s.ring
    ensures k !in Elements(Keys(s, q))
  {
    RingKeys(s);
    forall i | 0 <= i < |q| ensures Keys(s, q)[i] != k { assert q[i] in q; }
  }

  lemma ScanHotAt(s: State, k: Key)
    requires Inv(s) && s.ring != []
    ensures var c := FirstCold(s, s.ring);
      k in HotKeys(Scan(s)) <==> k in HotKeys(s) && k !in Elements(Keys(s, s.ring[..c]))
  {
    hide Inv, Memory;
    MemoryKeys(s);
    MemoryKeys(Scan(s));
    var q := s.ring[..FirstCold(s, s.ring)];
    if k in s.ptes {
      if s.ptes[k].v {
        RingKeys(s);
        PassedKey(s, q, k);
        ScanEntry(s, s.ptes[k].ppn);
      } else {
        SwappedNotPassed(s, q, k);
        EntryHome(s, k);
        ScanKeepsSwapped(s, k);
      }
    }
  }

  lemma KeysTurned(s: State, t: State, k: nat)
    requires k <= |s.ring| && t.back == s.back && t.ring == s.ring[k..] + s.ring[..k]
    ensures Keys(t, t.ring) == Keys(s, s.ring)[k..] + Keys(s, s.ring)[..k]
    ensures Keys(s, s.ring[..k]) == Keys(s, s.ring)[..k]
  {}

  /** The scan turns the ring to the first cold page and cools those it passed. */
  lemma ScanLook(s: State)
    requires Inv(s) && s.ring != []
    ensures var g, k := Look(s), ColdAt(Look(s).ring, Look(s).hot);
      Look(Scan(s)) == g.(ring := g.ring[k..] + g.ring[..k], hot := g.hot - Elements(g.ring[..k]))
    ensures KeyAt(s, Victim(s)) == Look(Scan(s)).ring[0]
  {
    hide Inv, Memory, HotKeys, Elements;
    RingKeys(s);
    ColdSame(s, s.ring);
    ScanStopsAtVictim(s);
    var k := FirstCold(s, s.ring);
    KeysTurned(s, Scan(s), k);
    forall j ensures j in HotKeys(Scan(s)) <==> j in HotKeys(s) - Elements(Keys(s, s.ring[..k])) { ScanHotAt(s, j); }
  }

  lemma EvictLook(s: State, slot: nat)
    requires Inv(s) && s.ring != [] && slot < NSLOTS && slot !in s.used && !Hot(s, s.ring[0])
    ensures var g, t := Look(s), Look(Evict(s, slot));
      g.slots > 0 && |g.ring| > 0 && t == Glance(g.free + 1, g.slots - 1, g.ring[1..], g.hot, g.tables)
  {
    hide Lists, TablesOk, TreeOk, PtesOk, Unshared, SlotsOk, SwapArea, WalksOk;
    EvictRing(s, slot);
    UsedSlots(s);
    UsedSlots(Evict(s, slot));
    SlotTaken(s.used, slot);
    RingKeys(s);
    assert s.ring[0] in s.ring;
    assert HotKeys(Evict(s, slot)) == HotKeys(s);
  }

  lemma SlotTaken(used: set<nat>, slot: nat)
    requires slot !in used
    ensures |used + {slot}| == |used| + 1
  {}

  lemma EvictRing(s: State, slot: nat)
    requires Inv(s) && s.ring != [] && slot < NSLOTS && slot !in s.used
    ensures var t := Evict(s, slot); t.ring == s.ring[1..] && Keys(t, t.ring) == Keys(s, s.ring)[1..]
  {
    hide TablesOk, TreeOk, PtesOk, Unshared, SlotsOk, SwapArea, WalksOk;
    HeadTail(s.ring);
    var t := Evict(s, slot);
    assert forall i :: 0 <= i < |t.ring| ==> t.ring[i] in t.ring;
  }

  lemma PopLook(s: State)
    requires Inv(s) && s.free != []
    ensures Look(Pop(s)) == Look(s).(free := |s.free| - 1)
  {
    hide Inv, Memory;
  }

  lemma TakeLook(s: State)
    requires Inv(s)
    ensures var a, t := Kalloc(s), TakeFrame(Look(s));
      && a.ok == t.ok && (a.ok ==> Look(a.s) == t.g)
      && (a.ok ==> t.victims == if s.free == [] && s.ring != [] then [KeyAt(s, Victim(s))] else [])
  {
    hide Inv, Memory, Outs, Look, Evict, Pop;
    assert Look(s).free == |s.free| && (Look(s).ring == [] <==> s.ring == []) by { LookIs(s); }
    if s.free != [] {
      PopLook(s);
    } else if s.ring != [] {
      UsedSlots(s);
      LookIs(s);
      if FirstFree(s.used, 0) < NSLOTS {
        ScanLook(s);
        var t, slot := Scan(s), FirstFree(s.used, 0);
        EvictLook(t, slot);
        PopLook(Evict(t, slot));
      }
    }
  }

  lemma LookIs(s: State)
    ensures Look(s).free == |s.free| && |Look(s).ring| == |s.ring| && Look(s).tables == s.tables.Keys
    ensures |s.used| <= NSLOTS ==> Look(s).slots == NSLOTS - |s.used|
  {}

  /** kalloc evicts the page being copied exactly when the glance says so. */
  lemma SpoilsLook(s: State, from: Key)
    requires Inv(s) && from in s.ptes && Kalloc(s).ok
    ensures Spoils(s, from) <==> TakeFrame(Look(s)).victims == [from]
  {
    hide Inv, Memory, Outs, Look, TakeFrame, Kalloc;
    TakeLook(s);
    RingKeys(s);
    if s.ring != [] { assert Victim(s) in s.ring; }
  }

  // ---- a round, and the whole copy ----

  lemma TableLook(s: State, t: TKey)
    requires Inv(s) && (t in s.tables || Hangs(s, t, 0)) && t.level < 2
    ensures var d, w := Ensure(s, t), TakeTable(Look(s), t);
      d.ok == w.ok && (d.ok ==> Look(d.s) == w.g)
  {
    hide Inv, Memory, Outs, Kalloc, TakeFrame, Quiet;
    TakeLook(s);
  }

  lemma FillLook(s: State, f: nat, data: Page)
    requires Inv(s) && Held(s, f)
    ensures Look(Fill(s, f, data)) == Look(s)
  {
    hide Inv, Memory, Outs;
  }

  /** mappages and lru_add list the page last, with the access bit of its entry. */
  lemma MapLook(s: State, k: Key, p: Pte)
    requires Inv(s) && Mappable(s, k, p)
    ensures Look(Map(s, k, p)).ring == Look(s).ring + [k]
    ensures Look(Map(s, k, p)) == Look(s).(ring := Look(s).ring + [k],
                                           hot := if p.a then Look(s).hot + {k} else Look(s).hot - {k})
  {
    hide TablesOk, TreeOk, Unshared, SlotsOk, SwapArea, WalksOk;
    assert p.ppn !in s.ring;
    assert forall i :: 0 <= i < |s.ring| ==> s.ring[i] in s.ring;
    assert Keys(Map(s, k, p), s.ring + [p.ppn]) == Keys(s, s.ring) + [k];
  }

  lemma PageInRing(s: State, k: Key, f: nat)
    requires Inv(s) && Held(s, f) && k in s.ptes && s.ptes[k].swapped
    ensures var t := PageIn(s, k, f); t.ring == s.ring + [f] && Keys(t, t.ring) == Keys(s, s.ring) + [k]
  {
    hide TablesOk, TreeOk, Unshared, SwapArea, WalksOk, PtesOk, SlotsOk, Memory;
    assert f !in s.ring;
    assert forall i :: 0 <= i < |s.ring| ==> s.ring[i] in s.ring;
  }

  lemma PageInSlots(s: State, k: Key, f: nat)
    requires Inv(s) && Held(s, f) && k in s.ptes && s.ptes[k].swapped
    ensures var t := PageIn(s, k, f); |s.used| <= NSLOTS && |t.used| == |s.used| - 1
  {
    hide TablesOk, TreeOk, Unshared, SwapArea, WalksOk, Lists, BackOk, SlotsOk, Memory;
    UsedSlots(s);
    SlotGiven(s.used, s.ptes[k].ppn);
  }

  /** swapin frees the slot and lists the page last. */
  lemma PageInLook(s: State, k: Key, f: nat)
    requires Inv(s) && Held(s, f) && k in s.ptes && s.ptes[k].swapped
    ensures var g := Look(s); Look(PageIn(s, k, f)) == g.(slots := g.slots + 1, ring := g.ring + [k])
  {
    hide Inv, Memory, Outs, Keys;
    PageInRing(s, k, f);
    PageInSlots(s, k, f);
    assert HotKeys(PageIn(s, k, f)) == HotKeys(s);
  }

  lemma SlotGiven(used: set<nat>, slot: nat)
    requires slot in used
    ensures |used - {slot}| == |used| - 1
  {}

  /** A page fault takes a frame as any kalloc does, and its page is the last to be evicted. */
  lemma SwapInLook(s: State, k: Key)
    requires Inv(s) && SwapIn(s, k).ok
    ensures var t := TakeFrame(Look(s));
      t.ok && Look(SwapIn(s, k).s) == t.g.(slots := t.g.slots + 1, ring := t.g.ring + [k])
  {
    hide Inv, Memory, Outs, Look, Kalloc, TakeFrame, PageIn, CannotEvict;
    TakeLook(s);
    KallocKeepsSwapped(s, k);
    var a := Kalloc(s);
    PageInLook(a.s, k, a.frame);
  }

  lemma InstallLook(s: State, k: Key, p: Pte, data: Page)
    requires Inv(s) && Held(s, p.ppn) && k !in s.ptes && p.v && !p.swapped && Root(k.root) in s.tables
    ensures var r, t := Install(s, k, p, data), ListPage(Look(s), k, p.a);
      r.ok == t.ok && (r.ok ==> Look(r.s) == t.g)
  {
    hide Inv, Memory, Outs, Ensure, TakeTable, Look, Map, Kfree, KeepsOuts;
    var z := Fill(s, p.ppn, data);
    FillLook(s, p.ppn, data);
    WalkQuiet(z, k);
    TableLook(z, Mid(k));
    var m := Ensure(z, Mid(k));
    if m.ok {
      TableLook(m.s, Low(k));
      var w := Walk(z, k);
      if w.ok {
        HeldStays(z, w.s, k, p.ppn);
        MapLook(w.s, k, p);
      }
    }
  }

  lemma RoundLook(s: State, from: Key, to: Key)
    requires Inv(s) && from in Memory(s) && to !in Memory(s) && Root(to.root) in s.tables
    ensures var d, t := CopyPage(s, from, to), CopyTurn(Look(s), from, to);
      && d.ok == t.ok && (d.ok ==> Look(d.s) == t.g)
      && (d.ok ==> (Spoils(s, from) <==> t.victims == [from]))
  {
    hide Inv, Memory, Outs, Kalloc, TakeFrame, Install, ListPage, Spoils;
    MemoryKeys(s);
    TakeLook(s);
    var a, src := Kalloc(s), s.ptes[from];
    MemoryKeys(a.s);
    if a.ok {
      SpoilsLook(s, from);
      InstallLook(a.s, to, src.(ppn := a.frame, v := true, swapped := false), CopyData(a.s, src));
    }
  }

  /** What uvmcopy returns and which pages it spoils depend on nothing but the glance. */
  lemma {:induction false} CopyForetold(s: State, parent: nat, child: nat, i: nat, n: nat)
    requires CanCopy(s, parent, child, i, n)
    ensures var r, t := UvmCopy(s, parent, child, i, n), Foretell(Look(s), parent, child, i, n);
      r.ok == t.ok && (r.ok ==> r.spoiled == t.spoiled)
    decreases n - i
  {
    hide Inv, Memory, Outs, CopyPage, CopyTurn, Look, Range, Spoils, Copies;
    if i < n {
      MoreCopies(Memory(s), parent, child, i, n, Spoils(s, Key(parent, i)), {});
      RoundLook(s, Key(parent, i), Key(child, i));
      var d := CopyPage(s, Key(parent, i), Key(child, i));
      if d.ok { CopyForetold(d.s, parent, child, i + 1, n); }
    }
  }

  lemma AllocLook(s: State, k: Key, w: bool, x: bool)
    requires Inv(s) && k !in Memory(s) && Root(k.root) in s.tables
    ensures var d, t := AllocPage(s, k, w, x), PageTurn(Look(s), k, false);
      d.ok == t.ok && (d.ok ==> Look(d.s) == t.g)
  {
    hide Inv, Memory, Outs, Kalloc, TakeFrame, Install, ListPage;
    MemoryKeys(s);
    TakeLook(s);
    var a := Kalloc(s);
    MemoryKeys(a.s);
    if a.ok { InstallLook(a.s, k, UserPte(a.frame, w, x), Filled(0)); }
  }

  /** fork copies memory exactly if and only if every page foretold to be spoiled already
      holds nothing but fives. */
  lemma ForkExactForetold(s: State, parent: nat, child: nat, n: nat)
    requires CanCopy(s, parent, child, 0, n)
    ensures var r, t := UvmCopy(s, parent, child, 0, n), Foretell(Look(s), parent, child, 0, n);
      && r.ok == t.ok
      && (r.ok ==>
            (Exact(Memory(r.s), parent, child, n)
             <==> forall v :: v in t.spoiled ==>
                    Key(parent, v) in Memory(s) && Memory(s)[Key(parent, v)].data == Filled(5)))
  {
    hide Inv, Memory, Outs, CopyPage, Look, Range, Copies, Exact, Foretell;
    CopyForetold(s, parent, child, 0, n);
    ExactIff(Memory(s), parent, child, n, UvmCopy(s, parent, child, 0, n).spoiled);
  }

  // ---- when there is memory enough ----

  /** How many of `c` frames must come from evictions. */
  function Evictions(g: Glance, c: nat): nat { if c > g.free then c - g.free else 0 }

  predicate Affords(g: Glance, c: nat) { Evictions(g, c) <= g.slots && Evictions(g, c) <= |g.ring| }

  /** From `g` to `h`, `c` frames were taken and `added` pages listed. */
  predicate Spent(g: Glance, h: Glance, c: nat, added: nat) {
    && h.free == (if c > g.free then 0 else g.free - c)
    && h.slots == g.slots - Evictions(g, c)
    && |h.ring| == |g.ring| - Evictions(g, c) + added
  }

  lemma TakeCost(g: Glance)
    ensures var t := TakeFrame(g);
      (t.ok <==> Affords(g, 1)) && (t.ok ==> Spent(g, t.g, 1, 0) && t.g.tables == g.tables)
  {}

  function TableCost(g: Glance, t: TKey): nat { if t in g.tables then 0 else 1 }

  lemma TakeTableCost(g: Glance, t: TKey)
    ensures var w, c := TakeTable(g, t), TableCost(g, t);
      (w.ok <==> Affords(g, c)) && (w.ok ==> Spent(g, w.g, c, 0) && w.g.tables == g.tables + {t})
  {
    hide TakeFrame;
    TakeCost(g);
  }

  function RoundCost(g: Glance, to: Key): nat { 1 + TableCost(g, Mid(to)) + TableCost(g, Low(to)) }

  /** A round takes a frame for the page and one for each table page that is missing. */
  lemma PageTurnCost(g: Glance, to: Key, heat: bool)
    ensures var t, c := PageTurn(g, to, heat), RoundCost(g, to);
      (t.ok <==> Affords(g, c)) && (t.ok ==> Spent(g, t.g, c, 1) && t.g.tables == g.tables + {Mid(to), Low(to)})
  {
    hide TakeFrame, TakeTable;
    TakeCost(g);
    var a := TakeFrame(g);
    if a.ok {
      TakeTableCost(a.g, Mid(to));
      var m := TakeTable(a.g, Mid(to));
      if m.ok { TakeTableCost(m.g, Low(to)); }
    }
  }

  /** The table pages walked through on the way to pages `i` up to `n`. */
  function OnTheWay(child: nat, i: nat, n: nat): set<TKey> {
    (set v: nat | i <= v < n :: Mid(Key(child, v))) + (set v: nat | i <= v < n :: Low(Key(child, v)))
  }

  /** A frame for each page, and one for each table page that `child` lacks. */
  function Needed(g: Glance, child: nat, i: nat, n: nat): nat
    requires i <= n
  {
    n - i + |OnTheWay(child, i, n) - g.tables|
  }

  lemma OnTheWaySplit(child: nat, i: nat, n: nat)
    requires i < n
    ensures OnTheWay(child, i, n) == OnTheWay(child, i + 1, n) + {Mid(Key(child, i)), Low(Key(child, i))}
  {
    var mids := set v: nat | i + 1 <= v < n :: Mid(Key(child, v));
    var lows := set v: nat | i + 1 <= v < n :: Low(Key(child, v));
    assert (set v: nat | i <= v < n :: Mid(Key(child, v))) == mids + {Mid(Key(child, i))};
    assert (set v: nat | i <= v < n :: Low(Key(child, v))) == lows + {Low(Key(child, i))};
  }

  lemma TwoFewer(all: set<TKey>, tables: set<TKey>, x: TKey, y: TKey)
    requires x != y && x in all && y in all
    ensures |all - tables|
            == |all - (tables + {x, y})| + (if x in tables then 0 else 1) + (if y in tables then 0 else 1)
  {
    var rest := all - (tables + {x, y});
    var more := (if x in tables then {} else {x}) + (if y in tables then {} else {y});
    assert all - tables == rest + more;
  }

  lemma NeededSplit(g: Glance, h: Glance, child: nat, i: nat, n: nat)
    requires i < n && h.tables == g.tables + {Mid(Key(child, i)), Low(Key(child, i))}
    ensures Needed(g, child, i, n) == RoundCost(g, Key(child, i)) + Needed(h, child, i + 1, n)
  {
    hide OnTheWay;
    OnTheWaySplit(child, i, n);
    var all := OnTheWay(child, i, n);
    TwoFewer(all, g.tables, Mid(Key(child, i)), Low(Key(child, i)));
    assert all - h.tables == OnTheWay(child, i + 1, n) - h.tables;
  }

  /** Frames short of what is needed must be evicted, each into a slot, and the last page
      copied cannot be among the evicted. */
  predicate Enough(g: Glance, child: nat, i: nat, n: nat)
    requires i <= n
  {
    var short := Needed(g, child, i, n) - g.free;
    short <= g.slots && (i < n ==> short < |g.ring| + n - i)
  }

  /** fork has memory enough exactly when the count says so. */
  lemma {:induction false} EnoughForetold(g: Glance, parent: nat, child: nat, i: nat, n: nat)
    requires i <= n
    ensures Foretell(g, parent, child, i, n).ok <==> Enough(g, child, i, n)
    decreases n - i
  {
    hide PageTurn, Needed;
    if i < n {
      PageTurnCost(g, Key(child, i), Key(parent, i) in g.hot);
      var t := CopyTurn(g, Key(parent, i), Key(child, i));
      var h := g.(tables := g.tables + {Mid(Key(child, i)), Low(Key(child, i))});
      NeededSplit(g, h, child, i, n);
      AtLeastPages(h, child, i + 1, n);
      if t.ok {
        SameNeeds(t.g, h, child, i + 1, n);
        EnoughForetold(t.g, parent, child, i + 1, n);
      }
    } else {
      NoPages(g, child, n);
    }
  }

  /** uvmalloc has memory enough exactly when the same count says so. */
  lemma {:induction false} GrowForetold(s: State, root: nat, start: nat, a: nat, b: nat, w: bool, x: bool)
    requires Inv(s) && Root(root) in s.tables && start <= a <= b
    requires Range(root, start, a) <= Memory(s).Keys && Range(root, a, b) !! Memory(s).Keys
    ensures UvmAlloc(s, root, start, a, b, w, x).ok <==> Enough(Look(s), root, a, b)
    decreases b - a
  {
    hide Inv, Memory, Outs, AllocPage, PageTurn, Needed, Look, Range, Zeros;
    if a < b {
      var g, k := Look(s), Key(root, a);
      MoreZeros(Memory(s), root, start, a, b, w, x);
      AllocLook(s, k, w, x);
      PageTurnCost(g, k, false);
      var d, t := AllocPage(s, k, w, x), PageTurn(g, k, false);
      var h := g.(tables := g.tables + {Mid(k), Low(k)});
      NeededSplit(g, h, root, a, b);
      AtLeastPages(h, root, a + 1, b);
      if t.ok {
        SameNeeds(t.g, h, root, a + 1, b);
        GrowForetold(d.s, root, start, a + 1, b, w, x);
      }
    } else {
      NoPages(Look(s), root, b);
    }
  }

  lemma AtLeastPages(g: Glance, child: nat, i: nat, n: nat)
    requires i <= n
    ensures Needed(g, child, i, n) >= n - i
    ensures i == n ==> Needed(g, child, i, n) == 0
  {
    if i == n { NoPages(g, child, n); }
  }

  lemma NoPages(g: Glance, child: nat, n: nat)
    ensures Needed(g, child, n, n) == 0
  {
    assert OnTheWay(child, n, n) == {};
  }

  lemma SameNeeds(g: Glance, h: Glance, child: nat, i: nat, n: nat)
    requires i <= n && g.tables == h.tables
    ensures Needed(g, child, i, n) == Needed(h, child, i, n)
  {}

  lemma {:induction false} NoneSpoiled(g: Glance, parent: nat, child: nat, i: nat, n: nat)
    requires i <= n && Needed(g, child, i, n) <= g.free
    ensures Foretell(g, parent, child, i, n) == Told(true, {})
    decreases n - i
  {
    hide ListPage, Needed;
    if i < n {
      PageTurnCost(g, Key(child, i), Key(parent, i) in g.hot);
      var t := CopyTurn(g, Key(parent, i), Key(child, i));
      var h := g.(tables := g.tables + {Mid(Key(child, i)), Low(Key(child, i))});
      NeededSplit(g, h, child, i, n);
      SameNeeds(t.g, h, child, i + 1, n);
      NoneSpoiled(t.g, parent, child, i + 1, n);
    }
  }

  /** fork succeeds exactly when there are frames, or pages to evict and slots to take them,
      for every page of the parent and every table page the child lacks. */
  lemma ForkSucceeds(s: State, parent: nat, child: nat, n: nat)
    requires CanCopy(s, parent, child, 0, n)
    ensures UvmCopy(s, parent, child, 0, n).ok <==> Enough(Look(s), child, 0, n)
  {
    hide Inv, Memory, Look, Foretell, Enough, UvmCopy;
    CopyForetold(s, parent, child, 0, n);
    EnoughForetold(Look(s), parent, child, 0, n);
  }

  /** With a free frame for every page and for every table page the child lacks, fork
      succeeds and copies memory exactly. */
  lemma ForkWithRoom(s: State, parent: nat, child: nat, n: nat)
    requires CanCopy(s, parent, child, 0, n) && |s.free| >= Needed(Look(s), child, 0, n)
    ensures var r := UvmCopy(s, parent, child, 0, n); r.ok && r.spoiled == {} && Exact(Memory(r.s), parent, child, n)
  {
    hide Inv, Memory, Exact, Foretell, Needed, UvmCopy, Copies, Range;
    CopyForetold(s, parent, child, 0, n);
    NoneSpoiled(Look(s), parent, child, 0, n);
    ExactIff(Memory(s), parent, child, n, {});
  }

  /** Whenever no frame is free and the parent's first page is the next victim, fork gives the
      child a page of fives in its place. */
  lemma ForkCopiesFives(s: State, parent: nat, child: nat, n: nat)
    requires CanCopy(s, parent, child, 0, n) && n > 0 && Enough(Look(s), child, 0, n)
    requires s.free == [] && s.ring != [] && KeyAt(s, Victim(s)) == Key(parent, 0)
    ensures var r := UvmCopy(s, parent, child, 0, n);
      && r.ok && 0 in r.spoiled
      && Key(child, 0) in Memory(r.s) && Memory(r.s)[Key(child, 0)].data == Filled(5)
    ensures Key(parent, 0) in Memory(s)
    ensures Memory(s)[Key(parent, 0)].data != Filled(5) ==>
      !Exact(Memory(UvmCopy(s, parent, child, 0, n).s), parent, child, n)
  {
    hide Inv, Memory, Outs, CopyPage, Look, Exact, Enough, Copies, UvmCopy;
    assert Key(parent, 0) in Range(parent, 0, n) && Key(child, 0) in Range(child, 0, n);
    MemoryKeys(s);
    ForkSucceeds(s, parent, child, n);
    CopyForetold(s, parent, child, 0, n);
    FirstSpoiled(s, parent, child, n);
    var r := UvmCopy(s, parent, child, 0, n);
    SpoiledCopy(Memory(s), parent, child, n, r.spoiled);
    ExactIff(Memory(s), parent, child, n, r.spoiled);
  }

  lemma FirstSpoiled(s: State, parent: nat, child: nat, n: nat)
    requires Inv(s) && n > 0 && Foretell(Look(s), parent, child, 0, n).ok
    requires s.free == [] && s.ring != [] && KeyAt(s, Victim(s)) == Key(parent, 0)
    ensures 0 in Foretell(Look(s), parent, child, 0, n).spoiled
  {
    hide Inv, Memory, Outs, Look, Kalloc, TakeFrame, ListPage;
    TakeLook(s);
  }

  lemma SpoiledCopy(m: map<Key, UserPage>, parent: nat, child: nat, n: nat, spoiled: set<nat>)
    requires Range(parent, 0, n) <= m.Keys && n > 0 && 0 in spoiled
    ensures var t := m + Copies(m, parent, child, 0, n, spoiled);
      Key(child, 0) in t && t[Key(child, 0)].data == Filled(5)
  {
    assert Key(parent, 0) in Range(parent, 0, n) && Key(child, 0) in Range(child, 0, n);
  }
}
