/** binit, bget, bread, brelse, bpin and bunpin (kernel/bio.c) over a circular doubly linked list. */
module BufCode {
  import opened BufModel
  import opened Params
  import Ring = LruRing
  import Swap = SwapModel

  const HEAD: nat := NBUF  // bcache.head

  /** The last entry of a ring brought to its front. */
  lemma LinkBack(next: map<nat, int>, prev: map<nat, int>, q: seq<nat>, x: nat)
    requires Ring.Linked(next, prev, q + [x])
    ensures Ring.Linked(next, prev, [x] + q)
  {
    var r, t := q + [x], [x] + q;
    forall i | 0 <= i < |t| ensures Ring.LinkAt(next, prev, t, i) {
      var i' := if i == 0 then |q| else i - 1;
      assert Ring.LinkAt(next, prev, r, i') && t[i] == r[i'];
      assert t[Ring.After(i, |t|)] == r[Ring.After(i', |r|)];
    }
  }

  /** The links of the list `q` of buffers, closed through the head. */
  ghost predicate Chained(next: map<nat, int>, prev: map<nat, int>, q: seq<nat>) {
    Ring.Linked(next, prev, q + [HEAD]) && Swap.Distinct(q) && HEAD !in q
  }

  /** Linking `b` in behind the head (kernel/bio.c:130-133). */
  lemma PutInFront(next: map<nat, int>, prev: map<nat, int>, q: seq<nat>, b: nat)
    requires Chained(next, prev, q) && b !in q && b != HEAD
    ensures HEAD in next && next[HEAD] == (q + [HEAD])[0] >= 0
    ensures var f := next[HEAD]; Chained(next[b := f][HEAD := b], prev[b := HEAD][f as nat := b], [b] + q)
  {
    var r := q + [HEAD];
    assert Ring.LinkAt(next, prev, r, |q|);
    forall i, j | 0 <= i < j < |r| ensures r[i] != r[j] {}
    Ring.LinkAdd(next, prev, r, b);
    assert r + [b] == (q + [HEAD]) + [b];
    LinkBack(next[b := r[0]][HEAD := b], prev[b := HEAD][r[0] := b], r, b);
    assert [b] + r == ([b] + q) + [HEAD];
  }

  /** Unlinking the buffer at `p` (kernel/bio.c:128-129). */
  lemma TakeOut(next: map<nat, int>, prev: map<nat, int>, q: seq<nat>, p: nat)
    requires Chained(next, prev, q) && p < |q|
    ensures var b := q[p];
      && b in next && b in prev && next[b] >= 0 && prev[b] >= 0
      && Chained(next[prev[b] as nat := next[b]], prev[next[b] as nat := prev[b]], q[..p] + q[p + 1..])
  {
    var r, b := q + [HEAD], q[p];
    forall i, j | 0 <= i < j < |r| ensures r[i] != r[j] {}
    var a, c := Ring.Before(p, |r|), Ring.After(p, |r|);
    assert Ring.LinkAt(next, prev, r, p) && Ring.LinkAt(next, prev, r, a);
    var n, m := next[r[a] := r[c]], prev[r[c] := r[a]];
    Ring.LinkRemove(next, prev, n[b := Ring.NULL], m[b := Ring.NULL], r, p);
    var t := r[..p] + r[p + 1..];
    assert t == (q[..p] + q[p + 1..]) + [HEAD];
    forall i | 0 <= i < |t| ensures Ring.LinkAt(n, m, t, i) {
      assert Ring.LinkAt(n[b := Ring.NULL], m[b := Ring.NULL], t, i);
      assert t[i] != b && t[Ring.After(i, |t|)] != b;
    }
  }

  /** The buffer `i` places down the list, or the head at its end. */
  ghost function Spot(q: seq<nat>, i: nat): nat
    requires i <= |q|
  {
    if i < |q| then q[i] else HEAD
  }

  lemma NextSpot(next: map<nat, int>, prev: map<nat, int>, q: seq<nat>, i: nat)
    requires Chained(next, prev, q) && i < |q|
    ensures q[i] != HEAD && q[i] in next && next[q[i]] == Spot(q, i + 1)
    ensures q[i] in prev && prev[q[i]] == if i == 0 then HEAD else q[i - 1]
  {
    var r := q + [HEAD];
    assert q[i] in q;
    assert Ring.LinkAt(next, prev, r, i) && Ring.LinkAt(next, prev, r, if i == 0 then |q| else i - 1);
  }

  lemma HeadSpots(next: map<nat, int>, prev: map<nat, int>, q: seq<nat>)
    requires Chained(next, prev, q)
    ensures HEAD in next && next[HEAD] == Spot(q, 0) && HEAD in prev && prev[HEAD] == (
      if q == [] then HEAD else q[|q| - 1])
  {
    var r := q + [HEAD];
    assert Ring.LinkAt(next, prev, r, |q|) && (|q| > 0 ==> Ring.LinkAt(next, prev, r, |q| - 1));
  }

  lemma LastFreeStep(s: State, n: nat)
    requires 0 < n <= |s.order| && s.order[n - 1] < |s.bufs|
    ensures LastFree(s, n) == if s.bufs[s.order[n - 1]].refcnt == 0 then n else LastFree(s, n - 1)
  {}

  class Cache {
    var bufs: seq<Buf>
    var next: map<nat, int>
    var prev: map<nat, int>
    ghost var v: State

    ghost predicate Valid()
      reads this
    {
      Inv(v) && bufs == v.bufs && Chained(next, prev, v.order)
    }

    /** binit, kernel/bio.c:36-53. */
    constructor ()
      ensures Valid() && Initial(v)
    {
      bufs := seq(NBUF, i => Buf(0, 0, false, 0));
      next := map[HEAD := HEAD];
      prev := map[HEAD := HEAD];
      v := State(seq(NBUF, i => Buf(0, 0, false, 0)), seq(NBUF, i requires 0 <= i < NBUF => NBUF - 1 - i),
        seq(NBUF, i => i), NBUF);
      new;
      ghost var q: seq<nat> := [];
      assert Ring.LinkAt(next, prev, [] + [HEAD], 0);
      var b := 0;
      while b < NBUF
        invariant 0 <= b <= NBUF && Chained(next, prev, q) && |q| == b && forall i :: 0 <= i < b ==> q[i] == b - 1 - i
        invariant bufs == v.bufs && Initial(v)
      {
        assert b !in q;
        PutInFront(next, prev, q, b);
        var first := next[HEAD];
        next := next[b := first];
        prev := prev[b := HEAD];
        prev := prev[first := b];
        next := next[HEAD := b];
        q := [b as nat] + q;
        b := b + 1;
      }
      assert q == v.order;
      InitialInv(v);
    }

    /** kernel/bio.c:66-73: the first buffer from the front that holds the block, or the head. */
    method FindCached(dev: nat, blockno: nat) returns (b: int)
      requires Valid()
      ensures b == Spot(v.order, Find(v, 0, dev, blockno))
    {
      hide Inv, Chained, InUse;
      HeadSpots(next, prev, v.order);
      InRange(v);
      ghost var i := 0;
      b := next[HEAD];
      while b != HEAD
        invariant 0 <= i <= |v.order| && b == Spot(v.order, i) && Find(v, 0, dev, blockno) == Find(v, i, dev, blockno)
        decreases |v.order| - i
      {
        NextSpot(next, prev, v.order, i);
        if bufs[b].dev == dev && bufs[b].blockno == blockno { return; }
        b := next[b];
        i := i + 1;
      }
      assert i == |v.order|;
    }

    /** kernel/bio.c:77-86: the last unreferenced buffer, from the back, or the head. */
    method FindFree() returns (b: int)
      requires Valid()
      ensures var j := LastFree(v, |v.order|); b == if j == 0 then HEAD else v.order[j - 1]
    {
      hide Inv, Chained, InUse, LastFree;
      HeadSpots(next, prev, v.order);
      InRange(v);
      ghost var j := |v.order|;
      b := prev[HEAD];
      while b != HEAD
        invariant 0 <= j <= |v.order| && b == (if j == 0 then HEAD else v.order[j - 1])
        invariant LastFree(v, |v.order|) == LastFree(v, j)
        decreases j
      {
        NextSpot(next, prev, v.order, j - 1);
        LastFreeStep(v, j);
        if bufs[b].refcnt == 0 { return; }
        b := prev[b];
        j := j - 1;
      }
      assert j == 0;
    }

    /** bget, kernel/bio.c:59-89; the result is -1 where bget panics. */
    method Bget(dev: nat, blockno: nat) returns (b: int)
      requires Valid()
      modifies this`bufs, this`v
      ensures Valid() && (b == -1 <==> Get(old(v), dev, blockno).None?)
      ensures b == -1 ==> v == old(v)
      ensures b != -1 ==> b >= 0 && Get(old(v), dev, blockno) == Got(v, b)
    {
      hide Inv, Chained, InUse, Find, LastFree;
      InRange(v);
      b := FindCached(dev, blockno);
      if b != HEAD {
        GetInv(v, dev, blockno);
        bufs := bufs[b := bufs[b].(refcnt := bufs[b].refcnt + 1)];
        v := Get(v, dev, blockno).s;
        return;
      }
      b := FindFree();
      if b != HEAD {
        GetInv(v, dev, blockno);
        bufs := bufs[b := Buf(dev, blockno, false, 1)];
        v := Get(v, dev, blockno).s;
        return;
      }
      b := -1;
    }

    /** brelse, kernel/bio.c:124-136. */
    method Brelse(b: nat)
      requires Valid() && b < NBUF && bufs[b].refcnt > 0
      modifies this
      ensures Valid() && v == Release(old(v), b)
    {
      hide Inv, Chained, Swap.Without;
      BufsSize(v);
      ReleaseInv(v, b);
      bufs := bufs[b := bufs[b].(refcnt := bufs[b].refcnt - 1)];
      if bufs[b].refcnt == 0 {
        MoveToFront(v, next, prev, b);
        prev := prev[next[b] := prev[b]];
        next := next[prev[b] := next[b]];
        next := next[b := next[HEAD]];
        prev := prev[b := HEAD];
        prev := prev[next[HEAD] := b];
        next := next[HEAD := b];
      }
      v := Release(v, b);
    }

    /** bread, kernel/bio.c:92-103: what is read is valid from then on. */
    method Bread(dev: nat, blockno: nat) returns (b: int, loaded: bool)
      requires Valid()
      modifies this`bufs, this`v
      ensures Valid() && (b == -1 <==> Get(old(v), dev, blockno).None?)
      ensures b == -1 ==> v == old(v)
      ensures b != -1 ==> Get(old(v), dev, blockno).Got? && var g := Get(old(v), dev, blockno);
        0 <= b == g.b < NBUF == |g.s.bufs| && loaded == !g.s.bufs[b].valid && v == Fill(g.s, b)
          && HasKey(v.bufs[b], dev, blockno)
      ensures b != -1 ==> (loaded <==> !Cached(old(v), dev, blockno))
    {
      hide Inv, Chained, Cached;
      loaded := false;
      b := Bget(dev, blockno);
      if b != -1 {
        GetInv(old(v), dev, blockno);
        GotIsValid(old(v), dev, blockno);
        RefsInv(v, b, 0);
        BufsSize(v);
        if !bufs[b].valid {
          loaded := true;
          bufs := bufs[b := bufs[b].(valid := true)];
        }
        assert !loaded ==> bufs[b := bufs[b].(valid := true)] == bufs;
        v := Fill(v, b);
      }
    }

    /** bpin, kernel/bio.c:139-144. */
    method Bpin(b: nat)
      requires Valid() && b < NBUF && bufs[b].refcnt > 0
      modifies this`bufs, this`v
      ensures Valid() && v == Pin(old(v), b)
    {
      hide Inv, Chained;
      BufsSize(v);
      RefsInv(v, b, bufs[b].refcnt + 1);
      bufs := bufs[b := bufs[b].(refcnt := bufs[b].refcnt + 1)];
      v := Pin(v, b);
    }

    /** bunpin, kernel/bio.c:146-151. */
    method Bunpin(b: nat)
      requires Valid() && b < NBUF && bufs[b].refcnt > 0
      modifies this`bufs, this`v
      ensures Valid() && v == Unpin(old(v), b)
    {
      hide Inv, Chained;
      BufsSize(v);
      RefsInv(v, b, bufs[b].refcnt - 1);
      bufs := bufs[b := bufs[b].(refcnt := bufs[b].refcnt - 1)];
      v := Unpin(v, b);
    }
  }

  /** The six assignments of kernel/bio.c:128-133, on a buffer in the list. */
  lemma MoveToFront(s: State, next: map<nat, int>, prev: map<nat, int>, b: nat)
    requires Inv(s) && Chained(next, prev, s.order) && b < NBUF
    ensures b in next && b in prev && next[b] >= 0 && prev[b] >= 0 && next[b] != b
    ensures var p1, n1 := prev[next[b] as nat := prev[b]], next[prev[b] as nat := next[b]];
      && HEAD in n1 && n1[HEAD] >= 0
      && var n2, p2 := n1[b := n1[HEAD]], p1[b := HEAD];
        n2[HEAD] == n1[HEAD] && Chained(n2[HEAD := b], p2[n2[HEAD] as nat := b], ToFront(s.order, b))
  {
    OrderDistinct(s);
    assert b in s.order;
    var p :| 0 <= p < |s.order| && s.order[p] == b;
    NextSpot(next, prev, s.order, p);
    assert next[b] != b;
    TakeOut(next, prev, s.order, p);
    Ring.WithoutAt(s.order, p);
    var q := s.order[..p] + s.order[p + 1..];
    assert b !in q;
    PutInFront(next[prev[b] as nat := next[b]], prev[next[b] as nat := prev[b]], q, b);
  }
}
