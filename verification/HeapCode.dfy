/** malloc, free and morecore (user/umalloc.c) over header words that are rewired in place. */
module HeapCode {
  import opened HeapModel

  /** The header words of the program's memory and the search pointer; 0 is the null pointer. */
  datatype Memory = Memory(ptr: map<nat, nat>, size: map<nat, nat>, freep: nat)

  function Succ(n: nat, i: nat): (r: nat)
    requires i < n
    ensures r < n
  {
    if i + 1 < n then i + 1 else 0
  }

  /** Steps along a ring of `n` from `i` to `j`, at least one. */
  function Dist(n: nat, i: nat, j: nat): nat
    requires i < n && j < n
  {
    if i < j then j - i else j - i + n
  }

  /** Entry `i` of the free list points to the next one; the last points back to base. */
  ghost predicate Link(ptr: map<nat, nat>, free: seq<nat>, i: nat)
    requires i < |free|
  {
    free[i] in ptr && ptr[free[i]] == free[Succ(|free|, i)]
  }

  ghost predicate Linked(ptr: map<nat, nat>, free: seq<nat>) {
    forall i {:trigger Link(ptr, free, i)} :: 0 <= i < |free| ==> Link(ptr, free, i)
  }

  ghost predicate Sized(size: map<nat, nat>, b: Blocks) {
    forall h {:trigger h in b.size} :: h in b.size ==> h in size && size[h] == b.size[h]
  }

  /** The links and sizes in memory are those of the blocks. */
  ghost predicate Shows(m: Memory, b: Blocks) {
    Ok(b) && Linked(m.ptr, b.free) && Sized(m.size, b) && m.freep in b.free
  }

  class Heap {
    var m: Memory
    ghost var b: Blocks

    /** Before the first call there is nothing; after it memory shows the blocks. */
    ghost predicate Valid()
      reads this
    {
      if m.freep == 0 then b == Blocks([], map[], map[]) else Shows(m, b)
    }

    constructor ()
      ensures Valid() && Live(b) == {} && b.own == map[]
    {
      m := Memory(map[], map[], 0);
      b := Blocks([], map[], map[]);
    }

    /** user/umalloc.c:30-32: where in the list the block belongs. */
    method FindPlace(bp: nat) returns (p: nat, ghost t: nat)
      requires m.freep != 0 && Valid() && bp in Live(b)
      ensures Between(b, t, bp) && p == b.free[t]
    {
      hide Ok, HeadOk, Inside;
      ghost var goal := Place(b, bp);
      Order(b, goal);
      p := m.freep;
      t :| 0 <= t < |b.free| && b.free[t] == p;
      while true
        invariant t < |b.free| && p == b.free[t]
        decreases if t == goal then 0 else Dist(|b.free|, t, goal)
      {
        assert Link(m.ptr, b.free, t);
        Order(b, t);
        var next := m.ptr[p];
        if bp > p && bp < next { return; }
        if p >= next && (bp > p || bp < next) { return; }
        p := next;
        t := Succ(|b.free|, t);
      }
    }

    /** user/umalloc.c:24-44. */
    method Free(ap: nat) returns (ghost t: nat)
      requires m.freep != 0 && Valid() && ap > 0 && ap - 1 in Live(b)
      modifies this
      ensures m.freep != 0 && Valid()
      ensures Between(old(b), t, ap - 1) && b == Released(old(b), t, ap - 1)
      ensures Live(b) == old(Live(b)) - {ap - 1} && b.own.Keys == old(b.own.Keys) && Others(old(b), b, ap - 1)
    {
      hide Ok, HeadOk, Inside, Linked, Link, Half, Shows, Released, Live, Others;
      var bp := ap - 1;
      var p;
      p, t := FindPlace(bp);
      FreeMem(m, b, t, bp);
      var next := m.ptr[p];
      if bp + m.size[bp] == next {
        m := m.(size := m.size[bp := m.size[bp] + m.size[next]], ptr := m.ptr[bp := m.ptr[next]]);
      } else {
        m := m.(ptr := m.ptr[bp := next]);
      }
      if p + m.size[p] == bp {
        m := m.(size := m.size[p := m.size[p] + m.size[bp]], ptr := m.ptr[p := m.ptr[bp]]);
      } else {
        m := m.(ptr := m.ptr[p := bp]);
      }
      m := m.(freep := p);
      b := Released(b, t, bp);
    }

    /** user/umalloc.c:46-61. `sbrk` is what the system call answers: -1, or where the units are. */
    method Morecore(nu: nat, sbrk: int) returns (p: nat, ghost big: nat)
      requires m.freep != 0 && Valid() && SbrkOk(b.own, sbrk)
      modifies this
      ensures m.freep != 0 && Valid()
      ensures sbrk == -1 ==> p == 0 && m == old(m) && b == old(b)
      ensures sbrk != -1 ==> p == m.freep && Enlarged(old(b), b, sbrk, Ask(nu))
      ensures sbrk != -1 ==> big < |b.free| && b.free[big] in b.size && b.size[b.free[big]] >= nu
    {
      hide Ok, HeadOk, Inside, Linked, Link, Live, Others;
      big := 0;
      if sbrk == -1 { return 0, 0; }
      var n := if nu < 4096 then 4096 else nu;
      GrownOk(b, sbrk, n);
      GrownShows(m, b, sbrk, n);
      ghost var before := b;
      m := m.(size := m.size[sbrk := n]);
      b := Grown(b, sbrk, n);
      ghost var mid := b;
      ghost var t := Free(sbrk + 1);
      FreshGone(before, mid, b, sbrk, n);
      ghost var k := ReleasedBlock(mid, t, sbrk);
      big :| 0 <= big < |b.free| && b.free[big] == k;
      p := m.freep;
    }

    /** user/umalloc.c:75-84: take block `p`, or its tail, off the list. */
    method Carve(prevp: nat, p: nat, nunits: nat, ghost k: nat) returns (r: nat)
      requires m.freep != 0 && Valid() && k < |b.free| && prevp == b.free[k] && p == b.free[Succ(|b.free|, k)]
      requires p in b.size && 0 < nunits <= b.size[p]
      modifies this
      ensures m.freep != 0 && Valid() && r > 0
      ensures r - 1 !in old(Live(b)) && Live(b) == old(Live(b)) + {r - 1} && r - 1 in b.size && b.size[r - 1] == nunits
      ensures b.own.Keys == old(b.own.Keys) && Others(old(b), b, r - 1)
    {
      hide Ok, HeadOk, Inside, Linked, Link, Live, Others, Without;
      ghost var i := Succ(|b.free|, k);
      NotBase(b, i);
      var q := p;
      if m.size[p] == nunits {
        TakeWhole(b, i);
        WholeMem(m, b, k);
        m := m.(ptr := m.ptr[prevp := m.ptr[p]]);
        b := b.(free := Without(b.free, i));
      } else {
        TakeTail(b, i, nunits);
        TailMem(m, b, k, nunits);
        m := m.(size := m.size[p := m.size[p] - nunits]);
        q := p + m.size[p];
        m := m.(size := m.size[q := nunits]);
        b := Cut(b, p, nunits);
      }
      m := m.(freep := prevp);
      r := q + 1;
    }

    /** user/umalloc.c:70-73: the first call makes an empty list. */
    method Start() returns (prevp: nat)
      requires Valid()
      modifies this
      ensures m.freep != 0 && Valid() && prevp == m.freep
      ensures Live(b) == old(Live(b)) && b.own == old(b.own)
      ensures forall n :: n > 0 ==> HasRoom(b, n) == HasRoom(old(b), n)
      ensures forall c, h :: Others(b, c, h) ==> Others(old(b), c, h)
    {
      prevp := m.freep;
      if prevp == 0 {
        prevp := BASE;
        m := Memory(m.ptr[BASE := BASE], m.size[BASE := 0], BASE);
        b := Blocks([BASE], map[BASE := 0], map[]);
        StartShows(m);
      }
    }

    /** user/umalloc.c:63-90. */
    method Malloc(nbytes: nat, sbrk: int) returns (r: nat)
      requires Valid() && SbrkOk(b.own, sbrk)
      modifies this
      ensures m.freep != 0 && Valid()
      ensures r == 0 <==> sbrk == -1 && !HasRoom(old(b), Needed(nbytes))
      ensures r == 0 ==> Live(b) == old(Live(b)) && b.own == old(b.own)
      ensures r != 0 ==> r - 1 !in old(Live(b)) && Live(b) == old(Live(b)) + {r - 1}
      ensures r != 0 ==> r - 1 in b.size && b.size[r - 1] == Needed(nbytes) && Others(old(b), b, r - 1)
      ensures r != 0 ==> Holds(b, r - 1, nbytes) && Alone(b, r - 1)
      ensures r != 0 ==>
        b.own.Keys == old(b.own.Keys) + if HasRoom(old(b), Needed(nbytes)) then {} else Units(sbrk, Ask(Needed(nbytes)))
    {
      hide Ok, HeadOk, Inside, Linked, Link, Live, Others, Shows, Enlarged, SbrkOk, Scanned, HasRoom, Dist, Alone,
           Holds;
      var nunits := (nbytes + 15) / 16 + 1;
      var prevp := Start();
      ghost var b0 := b;
      ghost var k: nat := IndexOf(m, b);
      ghost var f: nat := k;
      ghost var grown, g: nat := false, 0;
      Around(m, b, k);
      ScanStart(b, k, nunits);
      var p := m.ptr[prevp];
      while true
        invariant m.freep != 0 && Valid() && SbrkOk(b0.own, sbrk)
        invariant k < |b.free| && prevp == b.free[k] && p == b.free[Succ(|b.free|, k)]
        invariant f < |b.free| && b.free[f] == m.freep
        invariant !grown ==> b == b0 && Scanned(b, k, f, nunits)
        invariant grown ==> g < |b.free| && !Small(b, g, nunits) && Dist(|b.free|, k, g) <= Dist(|b.free|, k, f)
        invariant grown ==> sbrk != -1 && !HasRoom(b0, nunits) && Enlarged(b0, b, sbrk, Ask(nunits))
        decreases !grown, if grown then Dist(|b.free|, k, g) else Dist(|b.free|, k, f)
      {
        Around(m, b, k);
        if m.size[p] >= nunits {
          assert !Small(b, Succ(|b.free|, k), nunits);
          ghost var before := b;
          ScanHit(b, k, nunits);
          r := Carve(prevp, p, nunits, k);
          if grown { ThroughGrowth(b0, before, b, sbrk, Ask(nunits), r - 1); }
          ShownAlone(m, b, r - 1, nbytes);
          return;
        }
        if grown { Nearer(|b.free|, k, f, g); }
        if p == m.freep {
          ScanDone(b, k, f, nunits);
          p, g := Morecore(nunits, sbrk);
          if p == 0 { return 0; }
          grown := true;
          f := IndexOf(m, b);
          k := f;
          ScanStart(b, k, nunits);
          Farthest(|b.free|, f, g);
        } else {
          ScanStep(b, k, f, nunits);
          k := Succ(|b.free|, k);
        }
        Around(m, b, k);
        prevp := p;
        p := m.ptr[p];
      }
    }
  }

  /** Units for a request: its bytes and a header. */
  function Needed(nbytes: nat): nat { (nbytes + 15) / 16 + 1 }

  lemma ShownAlone(m: Memory, b: Blocks, h: nat, nbytes: nat)
    requires Shows(m, b) && h in b.size && b.size[h] == Needed(nbytes)
    ensures Alone(b, h) && Holds(b, h, nbytes)
  {
    hide Ok;
    StandsAlone(b, h);
  }

  /** Free block `i` is too small. */
  ghost predicate Small(b: Blocks, i: nat, n: nat) {
    i < |b.free| && b.free[i] in b.size && b.size[b.free[i]] < n
  }

  ghost predicate HasRoom(b: Blocks, n: nat) {
    exists i {:trigger Small(b, i, n)} :: 0 <= i < |b.free| && !Small(b, i, n)
  }

  /** Every free block the search has passed since entry `f` is too small. */
  ghost predicate Scanned(b: Blocks, k: nat, f: nat, n: nat)
    requires k < |b.free| && f < |b.free|
  {
    forall i {:trigger Small(b, i, n)} :: 0 <= i < |b.free| && Dist(|b.free|, k, i) > Dist(|b.free|, k, f) ==>
      Small(b, i, n)
  }

  lemma ScanStart(b: Blocks, k: nat, n: nat)
    requires k < |b.free|
    ensures Scanned(b, k, k, n)
  {
  }

  lemma ScanStep(b: Blocks, k: nat, f: nat, n: nat)
    requires k < |b.free| && f < |b.free| && Small(b, Succ(|b.free|, k), n) && Succ(|b.free|, k) != f
    ensures Scanned(b, k, f, n) ==> Scanned(b, Succ(|b.free|, k), f, n)
    ensures Dist(|b.free|, Succ(|b.free|, k), f) == Dist(|b.free|, k, f) - 1
  {
  }

  lemma ScanDone(b: Blocks, k: nat, f: nat, n: nat)
    requires k < |b.free| && f == Succ(|b.free|, k) && Small(b, f, n)
    ensures Scanned(b, k, f, n) ==> !HasRoom(b, n)
  {
  }

  lemma ScanHit(b: Blocks, k: nat, n: nat)
    requires k < |b.free| && !Small(b, Succ(|b.free|, k), n)
    ensures HasRoom(b, n)
  {
  }

  /** A target no farther than `f` is reached before `f` is passed. */
  lemma Nearer(n: nat, k: nat, f: nat, g: nat)
    requires k < n && f < n && g < n && Dist(n, k, g) <= Dist(n, k, f)
    ensures Succ(n, k) == f ==> g == f
    ensures Succ(n, k) != g ==> Dist(n, Succ(n, k), g) == Dist(n, k, g) - 1
    ensures Succ(n, k) != g ==> Dist(n, Succ(n, k), g) <= Dist(n, Succ(n, k), f)
  {
  }

  lemma Farthest(n: nat, f: nat, g: nat)
    requires f < n && g < n
    ensures Dist(n, f, g) <= Dist(n, f, f)
  {
  }

  lemma StartShows(m: Memory)
    requires m.freep == BASE && BASE in m.ptr && m.ptr[BASE] == BASE && BASE in m.size && m.size[BASE] == 0
    ensures Shows(m, Blocks([BASE], map[BASE := 0], map[])) && Live(Blocks([BASE], map[BASE := 0], map[])) == {}
    ensures Live(Blocks([], map[], map[])) == {}
    ensures forall n :: n > 0 ==> !HasRoom(Blocks([BASE], map[BASE := 0], map[]), n)
  {
  }

  lemma IndexOf(m: Memory, b: Blocks) returns (i: nat)
    requires Shows(m, b)
    ensures i < |b.free| && b.free[i] == m.freep
  {
    i :| 0 <= i < |b.free| && b.free[i] == m.freep;
  }

  /** What a search sees at entry `k` and the next. */
  lemma Around(m: Memory, b: Blocks, k: nat)
    requires Shows(m, b) && k < |b.free|
    ensures var i := Succ(|b.free|, k);
      && b.free[k] in m.ptr && m.ptr[b.free[k]] == b.free[i] && b.free[i] in b.size
      && b.free[i] in m.size && m.size[b.free[i]] == b.size[b.free[i]] && b.free[i] in m.ptr
    ensures forall i, j :: 0 <= i < |b.free| && 0 <= j < |b.free| && b.free[i] == b.free[j] ==> i == j
  {
    var i := Succ(|b.free|, k);
    assert Link(m.ptr, b.free, k) && Link(m.ptr, b.free, i);
    forall i, j | 0 <= i < |b.free| && 0 <= j < |b.free| && b.free[i] == b.free[j]
      ensures i == j { if i != j { Distinct(b, i, j); } }
  }

  lemma NotBase(b: Blocks, i: nat)
    requires Ok(b) && i < |b.free| && b.free[i] in b.size && b.size[b.free[i]] > 0
    ensures i > 0
  {
    BaseEmpty(b);
  }

  lemma WholeMem(m: Memory, b: Blocks, k: nat)
    requires Shows(m, b) && k < |b.free| && Succ(|b.free|, k) == k + 1 && Ok(b.(free := Without(b.free, k + 1)))
    ensures b.free[k + 1] in m.ptr && b.free[k] != 0
    ensures Shows(m.(ptr := m.ptr[b.free[k] := m.ptr[b.free[k + 1]]], freep := b.free[k]),
      b.(free := Without(b.free, k + 1)))
  {
    hide HeadOk, Inside, Gap, Ok;
    var q := Without(b.free, k + 1);
    Order(b, k);
    assert Link(m.ptr, b.free, k + 1);
    var ptr := m.ptr[b.free[k] := m.ptr[b.free[k + 1]]];
    forall i | 0 <= i < |q| ensures Link(ptr, q, i) {
      var i' := if i <= k then i else i + 1;
      assert Link(m.ptr, b.free, i') && q[i] == b.free[i'];
      if i' != k { Distinct(b, i', k); }
    }
    assert q[k] == b.free[k];
  }

  lemma TailMem(m: Memory, b: Blocks, k: nat, n: nat)
    requires Shows(m, b) && k < |b.free|
    requires var p := b.free[Succ(|b.free|, k)]; p in b.size && 0 < n < b.size[p] && Ok(Cut(b, p, n))
    ensures b.free[k] != 0
    ensures var p := b.free[Succ(|b.free|, k)]; var z := b.size[p] - n;
      Shows(m.(size := m.size[p := z][p + z := n], freep := b.free[k]), Cut(b, p, n))
  {
    hide HeadOk, Inside, Gap, Ok, Linked;
    Order(b, k);
  }

  lemma ThroughGrowth(b: Blocks, mid: Blocks, c: Blocks, at: int, n: nat, h: nat)
    requires Enlarged(b, mid, at, n) && Others(mid, c, h)
    ensures Others(b, c, h) && Live(mid) == Live(b) && mid.own.Keys == b.own.Keys + Units(at, n)
  {
  }

  /** Units to ask sbrk for. */
  function Ask(nu: nat): nat { if nu < 4096 then 4096 else nu }

  /** sbrk fails or answers with units above all it gave before. */
  ghost predicate SbrkOk(own: map<nat, nat>, sbrk: int) {
    sbrk == -1 || (sbrk > BASE && forall u :: u in own ==> u < sbrk)
  }

  /** The heap has `n` more units at `h`, and the same live blocks. */
  ghost predicate Enlarged(b: Blocks, c: Blocks, h: int, n: nat) {
    h >= 0 && Live(c) == Live(b) && c.own.Keys == b.own.Keys + Units(h, n) && forall x :: x in Live(b) ==>
      x in c.size && c.size[x] == b.size[x]
  }

  lemma GrownShows(m: Memory, b: Blocks, h: nat, n: nat)
    requires Shows(m, b) && Ok(Grown(b, h, n)) && h !in b.size
    ensures Shows(m.(size := m.size[h := n]), Grown(b, h, n))
  {
    hide Ok, Linked;
  }

  lemma FreshGone(b: Blocks, mid: Blocks, c: Blocks, h: nat, n: nat)
    requires Live(mid) == Live(b) + {h} && h !in b.size && Others(b, mid, h) && Others(mid, c, h)
    requires Live(c) == Live(mid) - {h}
    requires mid.own.Keys == b.own.Keys + Units(h, n) && c.own.Keys == mid.own.Keys
    ensures Enlarged(b, c, h, n)
  {
  }

  lemma Order(b: Blocks, t: nat)
    requires Ok(b) && t < |b.free|
    ensures b.free[0] == BASE && (t > 0 ==> BASE < b.free[t]) && (t + 1 < |b.free| ==> b.free[t] < b.free[t + 1])
    ensures forall h :: h in Live(b) ==> h > BASE
  {
    assert Gap(b, 0, t);
    if t + 1 < |b.free| { assert Gap(b, t, t + 1); }
    forall h | h in Live(b) ensures h > BASE { assert HeadOk(b, h); }
  }

  /** Exactly one place in the list is right for a live block. */
  lemma Place(b: Blocks, h: nat) returns (t: nat)
    requires Ok(b) && h in Live(b)
    ensures Between(b, t, h)
    ensures forall i :: 0 <= i < |b.free| && Between(b, i, h) ==> i == t
  {
    t := 0;
    assert HeadOk(b, h);
    while t + 1 < |b.free| && b.free[t + 1] < h
      invariant t < |b.free| && b.free[t] < h
    {
      t := t + 1;
    }
    forall i | 0 <= i < |b.free| && Between(b, i, h) ensures i == t {
      assert Gap(b, i, t) && Gap(b, t, i) && (i + 1 < |b.free| ==> Gap(b, i + 1, t))
        && (t + 1 < |b.free| ==> Gap(b, t + 1, i));
    }
  }

  /** The block joined with the free block above it, if they touch. */
  function Joined(b: Blocks, t: nat, h: nat): Blocks
    requires t < |b.free| && h in b.size && (t + 1 < |b.free| ==> b.free[t + 1] in b.size)
  {
    if t + 1 < |b.free| && h + b.size[h] == b.free[t + 1] then Merge(b, h, b.free[t + 1], Without(b.free, t + 1)) else b
  }

  /** All links hold but that of entry `t`, and `h` points to the entry after it. */
  ghost predicate Half(ptr: map<nat, nat>, free: seq<nat>, t: nat, h: nat) {
    && t < |free| && h in ptr && ptr[h] == free[Succ(|free|, t)]
    && forall i {:trigger Link(ptr, free, i)} :: 0 <= i < |free| && i != t ==> Link(ptr, free, i)
  }

  /** user/umalloc.c:33-37. */
  function JoinMem(m: Memory, next: nat, h: nat): Memory
    requires h in m.size && next in m.size && next in m.ptr
  {
    if h + m.size[h] == next then m.(size := m.size[h := m.size[h] + m.size[next]], ptr := m.ptr[h := m.ptr[next]])
    else m.(ptr := m.ptr[h := next])
  }

  /** user/umalloc.c:38-42. */
  function HookMem(m: Memory, p: nat, h: nat): Memory
    requires h in m.size && p in m.size && h in m.ptr
  {
    if p + m.size[p] == h then m.(size := m.size[p := m.size[p] + m.size[h]], ptr := m.ptr[p := m.ptr[h]])
    else m.(ptr := m.ptr[p := h])
  }

  lemma Reach(m: Memory, b: Blocks, t: nat, h: nat)
    requires Shows(m, b) && Between(b, t, h) && h in Live(b)
    ensures var n := Succ(|b.free|, t);
      && b.free[t] in b.size && b.free[n] in b.size && b.free[t] in m.ptr && m.ptr[b.free[t]] == b.free[n]
      && b.free[n] in m.size && b.free[n] in m.ptr && h in m.size && h !in b.free
      && (h + b.size[h] == b.free[n] ==> n == t + 1)
  {
    var n := Succ(|b.free|, t);
    assert Link(m.ptr, b.free, t) && Link(m.ptr, b.free, n);
    Order(b, t);
  }

  lemma Upper(m: Memory, b: Blocks, t: nat, h: nat)
    requires Shows(m, b) && Between(b, t, h) && h in Live(b)
    ensures var n := b.free[Succ(|b.free|, t)];
      b.free[t] in m.ptr && m.ptr[b.free[t]] == n && n in m.size && n in m.ptr && h in m.size
    ensures var n := b.free[Succ(|b.free|, t)]; var u := Joined(b, t, h);
      Half(JoinMem(m, n, h).ptr, u.free, t, h) && Sized(JoinMem(m, n, h).size, u)
  {
    hide Ok, HeadOk, Inside;
    Reach(m, b, t, h);
    var n := b.free[Succ(|b.free|, t)];
    var u := Joined(b, t, h);
    var m' := JoinMem(m, n, h);
    if u != b { assert Link(m.ptr, b.free, t + 1); }
    forall i | 0 <= i < |u.free| && i != t ensures Link(m'.ptr, u.free, i) {
      var i' := if i <= t || u.free == b.free then i else i + 1;
      assert Link(m.ptr, b.free, i') && u.free[i] == b.free[i'];
    }
  }

  lemma JoinedOk(b: Blocks, t: nat, h: nat)
    requires Ok(b) && Between(b, t, h) && h in Live(b)
    ensures var u := Joined(b, t, h);
      Ok(u) && h in Live(u) && t < |u.free| && u.free[t] == b.free[t] && u.free[t] in u.size
  {
    hide HeadOk, Inside, Gap;
    Apart(b, b.free[t], h);
    if t + 1 < |b.free| && h + b.size[h] == b.free[t + 1] { JoinUpper(b, t, h); }
  }

  lemma Lower(m: Memory, u: Blocks, t: nat, h: nat)
    requires Ok(u) && h in Live(u) && Half(m.ptr, u.free, t, h) && Sized(m.size, u) && u.free[t] in u.size
    requires u.free[t] != h
    ensures var p := u.free[t]; var m' := HookMem(m, p, h);
      if p + u.size[p] == h then Linked(m'.ptr, u.free) && Sized(m'.size, Merge(u, p, h, u.free))
      else Linked(m'.ptr, With(u.free, t + 1, h)) && Sized(m'.size, u) && With(u.free, t + 1, h)[t] == p
  {
    hide HeadOk, Inside, Ok;
    var p := u.free[t];
    var m' := HookMem(m, p, h);
    forall i | 0 <= i < |u.free| && i != t ensures u.free[i] != p { Distinct(u, i, t); }
    if p + u.size[p] == h {
      forall i | 0 <= i < |u.free| ensures Link(m'.ptr, u.free, i) {
        if i != t { assert Link(m.ptr, u.free, i); }
      }
    } else {
      var q := With(u.free, t + 1, h);
      forall i | 0 <= i < |q| ensures Link(m'.ptr, q, i) {
        var i' := if i <= t then i else i - 1;
        if i != t && i != t + 1 { assert Link(m.ptr, u.free, i'); assert q[i] == u.free[i']; }
      }
    }
  }

  lemma Distinct(b: Blocks, i: nat, j: nat)
    requires Ok(b) && i < |b.free| && j < |b.free| && i != j
    ensures b.free[i] != b.free[j]
  {
    assert Gap(b, i, j) && Gap(b, j, i);
  }

  /** Memory as free leaves it. */
  function FreedMem(m: Memory, p: nat, h: nat): Memory
    requires p in m.ptr && p in m.size && h in m.size && m.ptr[p] in m.size && m.ptr[p] in m.ptr
  {
    HookMem(JoinMem(m, m.ptr[p], h), p, h).(freep := p)
  }

  lemma FreeMem(m: Memory, b: Blocks, t: nat, h: nat)
    requires Shows(m, b) && Between(b, t, h) && h in Live(b)
    ensures b.free[t] != 0 && b.free[t] in m.ptr && b.free[t] in m.size && h in m.size && m.ptr[b.free[t]] in m.size
    ensures m.ptr[b.free[t]] in m.ptr
    ensures b.free[t] in b.size && h in b.size && (t + 1 < |b.free| ==> b.free[t + 1] in b.size)
    ensures var c := Released(b, t, h);
      && Shows(FreedMem(m, b.free[t], h), c)
      && Live(c) == Live(b) - {h} && c.own.Keys == b.own.Keys && Others(b, c, h)
  {
    hide HeadOk, Inside, Linked, Link, Half, Gap;
    Reach(m, b, t, h);
    Order(b, t);
    ReleasedOk(b, t, h);
    Upper(m, b, t, h);
    JoinedOk(b, t, h);
    var u := Joined(b, t, h);
    Lower(JoinMem(m, m.ptr[b.free[t]], h), u, t, h);
  }
}
