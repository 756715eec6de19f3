/** The blocks of the user-level heap (user/umalloc.c; The C Programming Language, second
    edition, section 8.7), seen without the links: addresses and sizes in units of a Header. */
module HeapModel {

  const BASE: nat := 1  // the static header `base`, below every address sbrk hands out

  /** Every block with its size, the free ones in list order, and the block each unit is in. */
  datatype Blocks = Blocks(free: seq<nat>, size: map<nat, nat>, own: map<nat, nat>)

  /** All units of block `h` are its own. */
  ghost predicate Owned(own: map<nat, nat>, h: nat, n: nat) {
    forall u: nat {:trigger u in own} :: h <= u < h + n ==> u in own && own[u] == h
  }

  /** Unit `u` lies in the block it is recorded in. */
  ghost predicate Inside(b: Blocks, u: nat) {
    u in b.own ==> b.own[u] in b.size && b.own[u] <= u < b.own[u] + b.size[b.own[u]]
  }

  ghost predicate HeadOk(b: Blocks, h: nat) {
    h in b.size ==> Owned(b.own, h, b.size[h]) && (if h == BASE then b.size[h] == 0 else h > BASE && b.size[h] > 0)
  }

  /** Blocks `i` and `j` of the free list are in address order with a gap between them. */
  ghost predicate Gap(b: Blocks, i: nat, j: nat)
    requires i < |b.free| && j < |b.free|
  {
    i < j ==> b.free[i] in b.size && b.free[i] + b.size[b.free[i]] < b.free[j]
  }

  /** The free list starts at base, is sorted and fully coalesced, and the units obtained from
      sbrk are parted among the blocks. */
  ghost predicate Ok(b: Blocks) {
    && b.free != [] && b.free[0] == BASE && BASE in b.size
    && (forall i {:trigger b.free[i]} :: 0 <= i < |b.free| ==> b.free[i] in b.size)
    && (forall i, j {:trigger Gap(b, i, j)} :: 0 <= i < |b.free| && 0 <= j < |b.free| ==> Gap(b, i, j))
    && (forall h: nat {:trigger HeadOk(b, h)} :: HeadOk(b, h))
    && (forall u: nat {:trigger Inside(b, u)} :: Inside(b, u))
  }

  function Live(b: Blocks): set<nat> { set h | h in b.size && h !in b.free }

  /** Two blocks have no unit in common. */
  lemma Apart(b: Blocks, h: nat, k: nat)
    requires Ok(b) && h in b.size && k in b.size && h < k
    ensures h + b.size[h] <= k
  {
    assert HeadOk(b, h) && HeadOk(b, k);
    assert k in b.own;
  }

  /** Block `h` has a header and room for `nbytes` bytes after it, less than a unit more than asked. */
  predicate Holds(b: Blocks, h: nat, nbytes: nat) {
    h in b.size && nbytes <= 16 * (b.size[h] - 1) < nbytes + 16
  }

  /** The units of block `h` come from sbrk, and none is in another block, live or free. */
  ghost predicate Alone(b: Blocks, h: nat) {
    && h in b.size && Owned(b.own, h, b.size[h])
    && forall x {:trigger x in b.size} :: x in b.size && x != h ==> x + b.size[x] <= h || h + b.size[h] <= x
  }

  lemma StandsAlone(b: Blocks, h: nat)
    requires Ok(b) && h in b.size
    ensures Alone(b, h)
  {
    hide Ok, Inside, Owned;
    HeadOf(b, h);
    forall x | x in b.size && x != h ensures x + b.size[x] <= h || h + b.size[h] <= x {
      if x < h { Apart(b, x, h); } else { Apart(b, h, x); }
    }
  }

  lemma HeadOf(b: Blocks, h: nat)
    requires Ok(b)
    ensures HeadOk(b, h)
  {
    hide HeadOk;
  }

  /** Give the units of `k` to `h`, which ends where `k` begins. */
  function Merge(b: Blocks, h: nat, k: nat, free: seq<nat>): Blocks
    requires h in b.size && k in b.size
  {
    Blocks(free, (b.size - {k})[h := b.size[h] + b.size[k]],
           map u | u in b.own :: if b.own[u] == k then h else b.own[u])
  }

  lemma MergeUnits(b: Blocks, h: nat, k: nat, free: seq<nat>)
    requires Ok(b) && h in b.size && k in b.size && h + b.size[h] == k && h != BASE && h != k
    ensures var c := Merge(b, h, k, free); (forall x: nat :: HeadOk(c, x)) && (forall u: nat :: Inside(c, u))
  {
    var c := Merge(b, h, k, free);
    assert HeadOk(b, h) && HeadOk(b, k);
    forall x: nat ensures HeadOk(c, x) { assert HeadOk(b, x); }
    forall u: nat ensures Inside(c, u) { assert Inside(b, u); }
  }

  function Without(q: seq<nat>, i: nat): seq<nat>
    requires i < |q|
  {
    q[..i] + q[i + 1..]
  }

  function With(q: seq<nat>, i: nat, x: nat): seq<nat>
    requires i <= |q|
  {
    q[..i] + [x] + q[i..]
  }

  /** A block may follow entry `t` of the free list without touching the next one. */
  ghost predicate Fits(b: Blocks, t: nat, h: nat) {
    && t < |b.free| && b.free[t] in b.size && h in b.size && h !in b.free
    && b.free[t] + b.size[b.free[t]] <= h
    && (t + 1 < |b.free| ==> h + b.size[h] < b.free[t + 1])
  }

  lemma WithoutElems(q: seq<nat>, i: nat, x: nat)
    requires i < |q|
    ensures x in Without(q, i) ==> x in q
    ensures x in q ==> x in Without(q, i) || x == q[i]
  {
    if x in q {
      assert q == q[..i] + [q[i]] + q[i + 1..];
    }
  }

  /** What one block going from live to free, or back, leaves alone. */
  ghost predicate Others(b: Blocks, c: Blocks, h: nat) {
    forall x :: x in Live(b) && x != h ==> x in c.size && c.size[x] == b.size[x]
  }

  /** The free list without entry `t + 1`, whose block has joined `h`. */
  lemma JoinUpperGaps(b: Blocks, t: nat, h: nat)
    requires Ok(b) && t + 1 < |b.free| && h in Live(b) && h + b.size[h] == b.free[t + 1]
    ensures var c := Merge(b, h, b.free[t + 1], Without(b.free, t + 1));
      && (forall i {:trigger c.free[i]} :: 0 <= i < |c.free| ==>
            c.free[i] in c.size && c.free[i] in b.size && c.free[i] in b.free && c.size[c.free[i]] == b.size[c.free[i]])
      && (forall i, j :: 0 <= i < |c.free| && 0 <= j < |c.free| ==> Gap(c, i, j))
  {
    var k := b.free[t + 1];
    var c := Merge(b, h, k, Without(b.free, t + 1));
    forall i | 0 <= i < |c.free|
      ensures c.free[i] in c.size && c.free[i] in b.size && c.free[i] in b.free
      ensures c.size[c.free[i]] == b.size[c.free[i]]
    {
      assert c.free[i] == b.free[if i <= t then i else i + 1];
      assert Gap(b, i, t + 1) && Gap(b, t + 1, if i <= t then i else i + 1);
    }
    forall i, j | 0 <= i < |c.free| && 0 <= j < |c.free| ensures Gap(c, i, j) {
      assert Gap(b, if i <= t then i else i + 1, if j <= t then j else j + 1);
    }
  }

  /** The free block after entry `t` joins the block below it. */
  lemma JoinUpper(b: Blocks, t: nat, h: nat)
    requires Ok(b) && t + 1 < |b.free| && h in Live(b) && h + b.size[h] == b.free[t + 1]
    requires b.free[t] + b.size[b.free[t]] <= h
    ensures var c := Merge(b, h, b.free[t + 1], Without(b.free, t + 1));
      Ok(c) && Fits(c, t, h) && Live(c) == Live(b) && c.own.Keys == b.own.Keys && Others(b, c, h)
  {
    var k := b.free[t + 1];
    var c := Merge(b, h, k, Without(b.free, t + 1));
    assert HeadOk(b, h);
    assert Gap(b, t, t + 1);
    MergeUnits(b, h, k, c.free);
    JoinUpperGaps(b, t, h);
    if t + 1 < |c.free| { assert Gap(b, t + 1, t + 2); }
    forall x ensures x in Live(c) <==> x in Live(b) { WithoutElems(b.free, t + 1, x); }
  }

  /** A live block joins the free block below it, entry `t`. */
  lemma JoinLower(b: Blocks, t: nat, h: nat)
    requires Ok(b) && Fits(b, t, h) && b.free[t] + b.size[b.free[t]] == h
    ensures var c := Merge(b, b.free[t], h, b.free);
      Ok(c) && Live(c) == Live(b) - {h} && c.own.Keys == b.own.Keys && Others(b, c, h)
  {
    var p := b.free[t];
    var c := Merge(b, p, h, b.free);
    assert HeadOk(b, h) && HeadOk(b, p);
    MergeUnits(b, p, h, c.free);
    forall i, j | 0 <= i < |c.free| && 0 <= j < |c.free| ensures Gap(c, i, j) {
      assert Gap(b, i, j) && Gap(b, i, t) && Gap(b, t, i);
      if i == t && t < j { assert Gap(b, t + 1, j); }
    }
  }

  /** A live block that touches no free block takes its place in the list. */
  lemma InsertAfter(b: Blocks, t: nat, h: nat)
    requires Ok(b) && Fits(b, t, h) && b.free[t] + b.size[b.free[t]] < h
    ensures var c := b.(free := With(b.free, t + 1, h));
      Ok(c) && Live(c) == Live(b) - {h} && Others(b, c, h)
  {
    var c := b.(free := With(b.free, t + 1, h));
    forall x: nat ensures HeadOk(c, x) { assert HeadOk(b, x); }
    forall u: nat ensures Inside(c, u) { assert Inside(b, u); }
    forall i, j | 0 <= i < |c.free| && 0 <= j < |c.free| ensures Gap(c, i, j) {
      var i' := if i <= t then i else if i == t + 1 then t else i - 1;
      var j' := if j <= t then j else if j == t + 1 then t else j - 1;
      assert Gap(b, i', j') && Gap(b, i', t) && (t + 1 < |b.free| ==> Gap(b, t + 1, j'));
    }
  }

  /** free: the block joins a neighbour on either side, or both. */
  function Released(b: Blocks, t: nat, h: nat): Blocks
    requires t < |b.free| && b.free[t] in b.size && h in b.size && (t + 1 < |b.free| ==> b.free[t + 1] in b.size)
  {
    var u := if t + 1 < |b.free| && h + b.size[h] == b.free[t + 1]
      then Merge(b, h, b.free[t + 1], Without(b.free, t + 1)) else b;
    if b.free[t] in u.size && h in u.size && b.free[t] + u.size[b.free[t]] == h then Merge(u, b.free[t], h, u.free)
      else u.(free := With(u.free, t + 1, h))
  }

  /** `h` lies between entry `t` of the free list and the next. */
  predicate Between(b: Blocks, t: nat, h: nat) {
    t < |b.free| && b.free[t] < h && (t + 1 < |b.free| ==> h < b.free[t + 1])
  }

  lemma ReleasedOk(b: Blocks, t: nat, h: nat)
    requires Ok(b) && h in Live(b) && Between(b, t, h)
    ensures var c := Released(b, t, h);
      Ok(c) && Live(c) == Live(b) - {h} && c.own.Keys == b.own.Keys && Others(b, c, h)
  {
    hide HeadOk, Inside, Gap, Owned;
    Apart(b, b.free[t], h);
    var u := b;
    if t + 1 < |b.free| {
      Apart(b, h, b.free[t + 1]);
      if h + b.size[h] == b.free[t + 1] {
        JoinUpper(b, t, h);
        u := Merge(b, h, b.free[t + 1], Without(b.free, t + 1));
      }
    }
    assert u.free[t] == b.free[t];
    if u.free[t] + u.size[u.free[t]] == h {
      JoinLower(u, t, h);
    } else {
      InsertAfter(u, t, h);
    }
  }

  /** The units just freed are in one free block. */
  lemma ReleasedBlock(b: Blocks, t: nat, h: nat) returns (k: nat)
    requires Ok(b) && h in Live(b) && Between(b, t, h)
    ensures k in Released(b, t, h).free && k in Released(b, t, h).size && Released(b, t, h).size[k] >= b.size[h]
  {
    hide HeadOk, Inside, Gap, Owned;
    Apart(b, b.free[t], h);
    ReleasedOk(b, t, h);
    var c := Released(b, t, h);
    if b.free[t] + b.size[b.free[t]] == h {
      k := b.free[t];
      assert c.free[t] == k;
    } else {
      k := h;
      assert c.free[t + 1] == h;
    }
  }

  // ---- malloc ----

  /** malloc takes the whole of free block `i`. */
  lemma TakeWhole(b: Blocks, i: nat)
    requires Ok(b) && 0 < i < |b.free|
    ensures var c := b.(free := Without(b.free, i));
      Ok(c) && Live(c) == Live(b) + {b.free[i]} && b.free[i] !in Live(b) && Others(b, c, b.free[i])
  {
    var c := b.(free := Without(b.free, i));
    forall x: nat ensures HeadOk(c, x) { assert HeadOk(b, x); }
    forall u: nat ensures Inside(c, u) { assert Inside(b, u); }
    forall k | 0 <= k < |c.free| ensures c.free[k] in c.size && c.free[k] != b.free[i] {
      assert c.free[k] == b.free[if k < i then k else k + 1];
      assert Gap(b, i, if k < i then k else k + 1) && Gap(b, k, i);
    }
    forall j, k | 0 <= j < |c.free| && 0 <= k < |c.free| ensures Gap(c, j, k) {
      assert Gap(b, if j < i then j else j + 1, if k < i then k else k + 1);
    }
    forall x ensures x in Live(c) <==> x in Live(b) + {b.free[i]} { WithoutElems(b.free, i, x); }
  }

  /** The last `n` units of block `h` become a block of their own. */
  function Cut(b: Blocks, h: nat, n: nat): Blocks
    requires h in b.size && n < b.size[h]
  {
    var k := h + b.size[h] - n;
    b.(size := b.size[h := b.size[h] - n][k := n],
       own := map u | u in b.own :: if b.own[u] == h && k <= u then k else b.own[u])
  }

  lemma CutUnits(b: Blocks, h: nat, n: nat)
    requires Ok(b) && h in b.size && 0 < n < b.size[h]
    ensures h + b.size[h] - n !in b.size
    ensures var c := Cut(b, h, n); (forall x: nat :: HeadOk(c, x)) && (forall u: nat :: Inside(c, u))
  {
    var k := h + b.size[h] - n;
    var c := Cut(b, h, n);
    assert HeadOk(b, h);
    if k in b.size { Apart(b, h, k); }
    forall x: nat ensures HeadOk(c, x) {
      assert HeadOk(b, x);
      if x in c.size {
        forall u: nat | x <= u < x + c.size[x] ensures u in c.own && c.own[u] == x {
          assert u in b.own && b.own[u] == if x == k then h else x;
        }
      }
    }
    forall u: nat ensures Inside(c, u) { assert Inside(b, u); }
  }

  /** malloc takes the tail of free block `i`. */
  lemma TakeTail(b: Blocks, i: nat, n: nat)
    requires Ok(b) && i < |b.free| && 0 < n < b.size[b.free[i]]
    ensures var c := Cut(b, b.free[i], n); var k := b.free[i] + b.size[b.free[i]] - n;
      Ok(c) && Live(c) == Live(b) + {k} && k !in Live(b) && c.own.Keys == b.own.Keys && Others(b, c, k)
  {
    var c := Cut(b, b.free[i], n);
    var k := b.free[i] + b.size[b.free[i]] - n;
    CutUnits(b, b.free[i], n);
    assert HeadOk(b, b.free[i]);
    forall x, y | 0 <= x < |c.free| && 0 <= y < |c.free| ensures Gap(c, x, y) { assert Gap(b, x, y); }
  }

  /** The `n` units from `h` on. */
  function Units(h: nat, n: nat): (r: set<nat>)
    ensures forall u: nat {:trigger u in r} :: u in r <==> h <= u < h + n
  {
    if n == 0 then {} else Units(h, n - 1) + {h + n - 1}
  }

  /** sbrk hands out `n` units at `h`, above everything it handed out before. */
  function Grown(b: Blocks, h: nat, n: nat): Blocks {
    b.(size := b.size[h := n], own := map u | u in b.own.Keys + Units(h, n) :: if u in b.own then b.own[u] else h)
  }

  lemma GrownOk(b: Blocks, h: nat, n: nat)
    requires Ok(b) && n > 0 && h > BASE && forall u :: u in b.own ==> u < h
    ensures var c := Grown(b, h, n);
      && Ok(c) && Live(c) == Live(b) + {h} && h !in b.size && Others(b, c, h)
      && c.own.Keys == b.own.Keys + Units(h, n)
  {
    var c := Grown(b, h, n);
    assert HeadOk(b, h);
    assert h in b.size ==> h in b.own;
    forall x: nat ensures HeadOk(c, x) { assert HeadOk(b, x); }
    forall u: nat ensures Inside(c, u) { assert Inside(b, u); }
    forall x, y | 0 <= x < |c.free| && 0 <= y < |c.free| ensures Gap(c, x, y) { assert Gap(b, x, y); }
  }

  // ---- the free list is determined by what is live ----

  /** Two heaps over the same units with the same live blocks. */
  ghost predicate SameLive(b: Blocks, c: Blocks) {
    b.own.Keys == c.own.Keys && Live(b) == Live(c) && forall h :: h in Live(b) ==> b.size[h] == c.size[h]
  }

  predicate FreeUnit(b: Blocks, u: nat) { u in b.own && b.own[u] in b.free }

  lemma SameFreeUnit(b: Blocks, c: Blocks, u: nat)
    requires Ok(b) && Ok(c) && SameLive(b, c) && FreeUnit(b, u)
    ensures FreeUnit(c, u)
  {
    assert u in b.own.Keys && u in c.own;
    assert Inside(b, u) && Inside(c, u);
    var h := c.own[u];
    assert HeadOk(b, h);
    assert h in Live(c) ==> h in Live(b);
  }

  /** The units on either side of a free block are not free. */
  lemma BlockEnds(b: Blocks, h: nat)
    requires Ok(b) && h in b.free && h != BASE
    ensures h > BASE && h in b.size && b.size[h] > 0 && !FreeUnit(b, h + b.size[h]) && !FreeUnit(b, h - 1)
    ensures forall u: nat {:trigger FreeUnit(b, u)} :: h <= u < h + b.size[h] ==> FreeUnit(b, u) && b.own[u] == h
  {
    var i :| 0 <= i < |b.free| && b.free[i] == h;
    assert HeadOk(b, h);
    forall u: nat | h <= u < h + b.size[h] ensures FreeUnit(b, u) && b.own[u] == h { assert u in b.own; }
    forall u: nat | FreeUnit(b, u) ensures u != h - 1 && u != h + b.size[h] {
      assert Inside(b, u);
      var j :| 0 <= j < |b.free| && b.free[j] == b.own[u];
      assert Gap(b, i, j) && Gap(b, j, i);
    }
  }

  lemma SameBlock(b: Blocks, c: Blocks, h: nat)
    requires Ok(b) && Ok(c) && SameLive(b, c) && h in b.free && h != BASE
    ensures h in c.free && b.size[h] == c.size[h]
  {
    hide HeadOk, Gap, Owned;
    BlockEnds(b, h);
    assert FreeUnit(b, h);
    SameFreeUnit(b, c, h);
    var k := c.own[h];
    assert Inside(c, h);
    assert k != BASE by { assert HeadOk(c, k); BaseEmpty(c); }
    BlockEnds(c, k);
    if k < h {
      assert FreeUnit(c, h - 1);
      SameFreeUnit(c, b, h - 1);
    }
    if c.size[h] < b.size[h] {
      assert FreeUnit(b, h + c.size[h]);
      SameFreeUnit(b, c, h + c.size[h]);
    }
    if b.size[h] < c.size[h] {
      assert FreeUnit(c, h + b.size[h]);
      SameFreeUnit(c, b, h + b.size[h]);
    }
  }

  lemma BaseEmpty(b: Blocks)
    requires Ok(b)
    ensures b.size[BASE] == 0
  {
    assert HeadOk(b, BASE);
  }

  /** Two increasing lists of the same numbers are the same list. */
  lemma {:induction false} SameSorted(p: seq<nat>, q: seq<nat>)
    requires forall i, j :: 0 <= i < j < |p| ==> p[i] < p[j]
    requires forall i, j :: 0 <= i < j < |q| ==> q[i] < q[j]
    requires forall x :: x in p <==> x in q
    ensures p == q
  {
    if p != [] { assert p[0] in p; }
    if q != [] { assert q[0] in q; }
    if p != [] {
      assert p[0] == q[0];
      forall x ensures x in p[1..] <==> x in q[1..] {
        assert x in p <==> x == p[0] || x in p[1..] by { assert p == [p[0]] + p[1..]; }
        assert x in q <==> x == q[0] || x in q[1..] by { assert q == [q[0]] + q[1..]; }
      }
      SameSorted(p[1..], q[1..]);
      assert p == [p[0]] + p[1..] && q == [q[0]] + q[1..];
    }
  }

  /** Whatever calls led to it, the free list is the one the live blocks leave: so frees commute,
      and free undoes malloc. */
  lemma HeapIsCanonical(b: Blocks, c: Blocks)
    requires Ok(b) && Ok(c) && SameLive(b, c)
    ensures b.free == c.free && b.size == c.size
  {
    hide HeadOk, Inside, Owned, SameLive;
    forall x ensures x in b.free <==> x in c.free {
      if x in b.free && x != BASE { SameBlock(b, c, x); }
      if x in c.free && x != BASE { SameLiveBack(b, c); SameBlock(c, b, x); }
    }
    forall i, j | 0 <= i < j < |b.free| ensures b.free[i] < b.free[j] { assert Gap(b, i, j); }
    forall i, j | 0 <= i < j < |c.free| ensures c.free[i] < c.free[j] { assert Gap(c, i, j); }
    SameSorted(b.free, c.free);
    SameSizes(b, c);
  }

  lemma SameLiveBack(b: Blocks, c: Blocks)
    requires SameLive(b, c)
    ensures SameLive(c, b)
  {
  }

  lemma SameSizes(b: Blocks, c: Blocks)
    requires Ok(b) && Ok(c) && SameLive(b, c) && b.free == c.free
    ensures b.size == c.size
  {
    hide HeadOk, Inside, Owned, Gap;
    BaseEmpty(b);
    BaseEmpty(c);
    forall h ensures h in b.size <==> h in c.size {
      assert h in b.size <==> h in Live(b) || h in b.free;
      assert h in c.size <==> h in Live(c) || h in c.free;
    }
    forall h | h in b.size ensures b.size[h] == c.size[h] {
      if h in b.free { if h != BASE { SameBlock(b, c, h); } } else { assert h in Live(b); }
    }
  }

  /** free turns heap `b` into `c`, wherever the search put the block. */
  ghost predicate Frees(b: Blocks, h: nat, c: Blocks) {
    Ok(b) && h in Live(b) && exists t: nat {:trigger Between(b, t, h)} :: Between(b, t, h) && c == Released(b, t, h)
  }

  lemma FreesOk(b: Blocks, h: nat, c: Blocks)
    requires Frees(b, h, c)
    ensures Ok(c) && Live(c) == Live(b) - {h} && c.own.Keys == b.own.Keys && Others(b, c, h)
  {
    var t: nat :| Between(b, t, h) && c == Released(b, t, h);
    ReleasedOk(b, t, h);
  }

  /** Two frees give the same heap in either order. */
  lemma FreesCommute(b: Blocks, h: nat, k: nat, hs: Blocks, hk: Blocks, ks: Blocks, kh: Blocks)
    requires Frees(b, h, hs) && Frees(hs, k, hk) && Frees(b, k, ks) && Frees(ks, h, kh)
    ensures hk.free == kh.free && hk.size == kh.size
  {
    hide Ok, Frees;
    FreesOk(b, h, hs);
    FreesOk(hs, k, hk);
    FreesOk(b, k, ks);
    FreesOk(ks, h, kh);
    HeapIsCanonical(hk, kh);
  }

  /** malloc takes all of free block `i`, or its last `n` units. */
  function Carved(b: Blocks, i: nat, n: nat): Blocks
    requires i < |b.free| && b.free[i] in b.size && n <= b.size[b.free[i]]
  {
    if n == b.size[b.free[i]] then b.(free := Without(b.free, i)) else Cut(b, b.free[i], n)
  }

  /** free gives back exactly what malloc carved: the list is as it was before the call. */
  lemma FreeUndoesMalloc(b: Blocks, i: nat, n: nat, c: Blocks)
    requires Ok(b) && 0 < i < |b.free| && 0 < n <= b.size[b.free[i]]
    requires Frees(Carved(b, i, n), b.free[i] + b.size[b.free[i]] - n, c)
    ensures c.free == b.free && c.size == b.size
  {
    hide Frees, Gap, HeadOk, Inside;
    if n == b.size[b.free[i]] { TakeWhole(b, i); } else { TakeTail(b, i, n); }
    FreesOk(Carved(b, i, n), b.free[i] + b.size[b.free[i]] - n, c);
    HeapIsCanonical(c, b);
  }
}
