/** The eviction ring of kernel/vm.c: a circular doubly linked list through pages[]. */
module LruRing {
  import opened SwapModel

  const NULL := -1

  /** `b` follows `a` on the ring, seen from both. */
  ghost predicate Link(next: map<nat, int>, prev: map<nat, int>, a: nat, b: nat) {
    a in next && next[a] == b && b in prev && prev[b] == a
  }

  function After(i: nat, n: nat): nat { if i + 1 < n then i + 1 else 0 }

  ghost predicate LinkAt(next: map<nat, int>, prev: map<nat, int>, q: seq<nat>, i: nat)
    requires i < |q|
  {
    Link(next, prev, q[i], q[After(i, |q|)])
  }

  ghost predicate Linked(next: map<nat, int>, prev: map<nat, int>, q: seq<nat>) {
    forall i {:trigger LinkAt(next, prev, q, i)} :: 0 <= i < |q| ==> LinkAt(next, prev, q, i)
  }

  /** Pages off the ring have null links, which is how lru_remove recognises them. */
  ghost predicate Unlinked(next: map<nat, int>, prev: map<nat, int>, q: seq<nat>) {
    && next.Keys == prev.Keys
    && (forall f {:trigger f in next} :: f in next ==> (f !in q <==> next[f] == NULL) && (f !in q <==> prev[f] == NULL))
  }

  lemma LinkAdd(next: map<nat, int>, prev: map<nat, int>, q: seq<nat>, pg: nat)
    requires Distinct(q) && q != [] && pg !in q && Linked(next, prev, q)
    ensures Linked(next[pg := q[0]][q[|q| - 1] := pg], prev[pg := q[|q| - 1]][q[0] := pg], q + [pg])
  {
    var n, p, r := next[pg := q[0]][q[|q| - 1] := pg], prev[pg := q[|q| - 1]][q[0] := pg], q + [pg];
    forall i | 0 <= i < |r| ensures LinkAt(n, p, r, i) {
      if i + 1 < |q| {
        assert LinkAt(next, prev, q, i);
        assert r[i] == q[i] && r[i + 1] == q[i + 1];
      }
    }
  }

  lemma LinkRotate(next: map<nat, int>, prev: map<nat, int>, q: seq<nat>)
    requires q != [] && Linked(next, prev, q)
    ensures Linked(next, prev, q[1..] + [q[0]])
    ensures q[0] in next && next[q[0]] == (q[1..] + [q[0]])[0]
  {
    var r := q[1..] + [q[0]];
    forall i | 0 <= i < |r| ensures LinkAt(next, prev, r, i) {
      if i + 1 < |q| {
        assert LinkAt(next, prev, q, i + 1);
        assert r[i] == q[i + 1];
        assert r[After(i, |r|)] == q[After(i + 1, |q|)];
      } else {
        assert LinkAt(next, prev, q, 0);
      }
    }
    assert LinkAt(next, prev, q, 0);
  }

  function Before(j: nat, n: nat): nat
    requires j < n
  {
    if j == 0 then n - 1 else j - 1
  }

  ghost predicate Bypassed(next: map<nat, int>, prev: map<nat, int>, n: map<nat, int>, p: map<nat, int>,
                           q: seq<nat>, j: nat)
    requires j < |q|
  {
    var a, b := q[Before(j, |q|)], q[After(j, |q|)];
    n == next[a := b][q[j] := NULL] && p == prev[b := a][q[j] := NULL]
  }

  lemma LinkAround(next: map<nat, int>, prev: map<nat, int>, n: map<nat, int>, p: map<nat, int>,
                   q: seq<nat>, j: nat, i: nat)
    requires Distinct(q) && j < |q| && |q| >= 2 && Linked(next, prev, q) && Bypassed(next, prev, n, p, q, j)
    requires i < |q| && i != j
    ensures i == Before(j, |q|) ==> Link(n, p, q[i], q[After(j, |q|)])
    ensures i != Before(j, |q|) ==> Link(n, p, q[i], q[After(i, |q|)])
  {
    var m := After(i, |q|);
    assert LinkAt(next, prev, q, i);
    if i != Before(j, |q|) {
      assert m != j && m != After(j, |q|);
      assert q[m] != q[j] && q[m] != q[After(j, |q|)] && q[i] != q[j] && q[i] != q[Before(j, |q|)];
    }
  }

  /** Unlinking the page at `j`: the assignments of lru_remove close the ring around it. */
  lemma LinkRemove(next: map<nat, int>, prev: map<nat, int>, n: map<nat, int>, p: map<nat, int>, q: seq<nat>, j: nat)
    requires Distinct(q) && j < |q| && |q| >= 2 && Linked(next, prev, q) && Bypassed(next, prev, n, p, q, j)
    ensures Linked(n, p, q[..j] + q[j + 1..])
  {
    var r := q[..j] + q[j + 1..];
    forall i | 0 <= i < |r| ensures LinkAt(n, p, r, i) {
      var i' := if i < j then i else i + 1;
      assert r[i] == q[i'];
      LinkAround(next, prev, n, p, q, j, i');
      assert r[After(i, |r|)] == if i' == Before(j, |q|) then q[After(j, |q|)] else q[After(i', |q|)];
    }
  }

  lemma UnlinkedAdd(next: map<nat, int>, prev: map<nat, int>, q: seq<nat>, pg: nat)
    requires Unlinked(next, prev, q) && pg in next && q != []
    requires q[0] in next && q[|q| - 1] in next
    ensures Unlinked(next[pg := q[0]][q[|q| - 1] := pg], prev[pg := q[|q| - 1]][q[0] := pg], q + [pg])
  {}

  lemma UnlinkedRemove(next: map<nat, int>, prev: map<nat, int>, q: seq<nat>, f: nat, a: nat, b: nat)
    requires Distinct(q) && Unlinked(next, prev, q) && f in q && f in next && a in q && a in next && b in q && b in next
    requires f != a && f != b
    ensures Unlinked(next[a := b][f := NULL], prev[b := a][f := NULL], Without(q, f))
  {
    WithoutHas(q, f);
  }

  lemma {:induction false} WithoutAt(q: seq<nat>, j: nat)
    requires Distinct(q) && j < |q|
    ensures Without(q, q[j]) == q[..j] + q[j + 1..]
  {
    if j > 0 {
      HeadTail(q);
      WithoutAt(q[1..], j - 1);
      assert [q[0]] + (q[1..][..j - 1] + q[1..][j..]) == q[..j] + q[j + 1..];
    }
  }

  lemma {:induction false} WithoutAbsent(q: seq<nat>, f: nat)
    requires f !in q
    ensures Without(q, f) == q
  {
    if q != [] {
      assert f !in q[1..];
      WithoutAbsent(q[1..], f);
    }
  }

  lemma Neighbours(next: map<nat, int>, prev: map<nat, int>, q: seq<nat>, j: nat)
    requires Distinct(q) && |q| >= 2 && j < |q| && Linked(next, prev, q) && Unlinked(next, prev, q)
    ensures q[j] in next && q[j] in prev && next[q[j]] == q[After(j, |q|)] && prev[q[j]] == q[Before(j, |q|)]
    ensures q[After(j, |q|)] != q[j] && q[Before(j, |q|)] != q[j]
    ensures q[After(j, |q|)] in next && q[Before(j, |q|)] in next
  {
    assert LinkAt(next, prev, q, j) && LinkAt(next, prev, q, Before(j, |q|));
  }

  lemma Ends(q: seq<nat>, j: nat)
    requires |q| >= 2 && j < |q|
    ensures var r := q[..j] + q[j + 1..];
      && r != []
      && r[0] == (if j == 0 then q[After(j, |q|)] else q[0])
      && r[|r| - 1] == (if j == |q| - 1 then q[Before(j, |q|)] else q[|q| - 1])
  {}

  /** What lru_remove computes for a page on a ring of two or more. */
  lemma RemoveLinks(next: map<nat, int>, prev: map<nat, int>, q: seq<nat>, pg: nat)
    requires Distinct(q) && |q| >= 2 && pg in q && Linked(next, prev, q) && Unlinked(next, prev, q)
    ensures pg in next && pg in prev && next[pg] != pg && prev[pg] != pg
    ensures next[pg] >= 0 && prev[pg] >= 0 && next[pg] in next && prev[pg] in next
    ensures var n, p, r := next[prev[pg] as nat := next[pg]][pg := NULL], prev[next[pg] as nat := prev[pg]][pg := NULL],
                           Without(q, pg);
      && Linked(n, p, r) && Unlinked(n, p, r) && Distinct(r) && r != []
      && r[0] == (if pg == q[0] then next[pg] else q[0])
      && r[|r| - 1] == (if pg == q[|q| - 1] then prev[pg] else q[|q| - 1])
  {
    var j :| 0 <= j < |q| && q[j] == pg;
    Neighbours(next, prev, q, j);
    var a, b := q[Before(j, |q|)], q[After(j, |q|)];
    LinkRemove(next, prev, next[a := b][pg := NULL], prev[b := a][pg := NULL], q, j);
    UnlinkedRemove(next, prev, q, pg, a, b);
    WithoutHas(q, pg);
    WithoutAt(q, j);
    Ends(q, j);
  }

  lemma RemoveOnly(next: map<nat, int>, prev: map<nat, int>, pg: nat)
    requires pg in next && Unlinked(next, prev, [pg])
    ensures Unlinked(next[pg := NULL], prev[pg := NULL], []) && Without([pg], pg) == []
  {}

  class Lru {
    var head: int
    var tail: int
    var next: map<nat, int>   // pages[f].next, NULL off the ring
    var prev: map<nat, int>

    ghost var ring: seq<nat>  // the pages in order from lru_head

    ghost predicate Valid()
      reads this
    {
      && Distinct(ring)
      && (ring == [] ==> head == NULL && tail == NULL)
      && (ring != [] ==> head == ring[0] && tail == ring[|ring| - 1])
      && Linked(next, prev, ring)
      && Unlinked(next, prev, ring)
    }

    constructor (frames: set<nat>)
      ensures Valid() && ring == [] && next.Keys == frames
    {
      head, tail := NULL, NULL;
      next := map f | f in frames :: NULL;
      prev := map f | f in frames :: NULL;
      ring := [];
    }

    /** lru_add */
    method Add(pg: nat)
      requires Valid() && pg in next && pg !in ring
      modifies this
      ensures Valid() && ring == old(ring) + [pg] && next.Keys == old(next.Keys)
    {
      if head == NULL {
        head, tail := pg, pg;
        next, prev := next[pg := pg], prev[pg := pg];
      } else {
        assert LinkAt(next, prev, ring, 0) && LinkAt(next, prev, ring, |ring| - 1);
        LinkAdd(next, prev, ring, pg);
        UnlinkedAdd(next, prev, ring, pg);
        prev := prev[pg := tail];
        next := next[pg := head];
        next := next[tail := pg];
        prev := prev[head := pg];
        tail := pg;
      }
      ring := ring + [pg];
    }

    /** lru_remove: a page off the ring is left alone. */
    method Remove(pg: nat)
      requires Valid() && pg in next
      modifies this
      ensures Valid() && next.Keys == old(next.Keys)
      ensures ring == Without(old(ring), pg)
    {
      if next[pg] == NULL || prev[pg] == NULL {
        WithoutAbsent(ring, pg);
        return;
      }
      assert pg in ring;
      if pg == head && pg == tail {
        assert ring == [pg];
        RemoveOnly(next, prev, pg);
        head, tail := NULL, NULL;
      } else {
        assert |ring| >= 2;
        RemoveLinks(next, prev, ring, pg);
        if pg == head { head := next[pg]; }
        if pg == tail { tail := prev[pg]; }
        next := next[prev[pg] := next[pg]];
        prev := prev[next[pg] := prev[pg]];
      }
      next, prev := next[pg := NULL], prev[pg := NULL];
      ring := Without(ring, pg);
    }

    /** The clock hand passes the head: it becomes the tail. */
    method Rotate()
      requires Valid() && ring != []
      modifies this
      ensures Valid() && next == old(next) && prev == old(prev)
      ensures ring == old(ring)[1..] + [old(ring)[0]]
    {
      LinkRotate(next, prev, ring);
      HeadTail(ring);
      AddOne(ring[1..], ring[0]);
      var cand := head;
      head := next[cand];
      tail := cand;
      assert ring == [ring[0]] + ring[1..];
      ring := ring[1..] + [ring[0]];
    }
  }
}
