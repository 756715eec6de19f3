/** What swapout's clock scan computes, without following its steps. */
module Clock {
  import opened RiscV
  import opened SwapModel

  /** How many pages in a row, from the front of `q`, have their access bit set. */
  function FirstCold(s: State, q: seq<nat>): (k: nat)
    ensures k <= |q|
    ensures forall i :: 0 <= i < k ==> Hot(s, q[i])
    ensures k < |q| ==> !Hot(s, q[k])
  {
    if q == [] || !Hot(s, q[0]) then 0 else 1 + FirstCold(s, q[1..])
  }

  /** The page swapout evicts: the first cold one, or the head when all are hot. */
  function Victim(s: State): nat
    requires s.ring != []
  {
    var k := FirstCold(s, s.ring);
    if k < |s.ring| then s.ring[k] else s.ring[0]
  }

  /** One rotation cools the head and nothing else on the ring. */
  lemma RotateHeat(s: State, f: nat)
    requires Inv(s) && s.ring != [] && f in s.ring
    ensures s.ring[0] in s.back && s.back[s.ring[0]] in s.ptes
    ensures Hot(Rotate(s), f) <==> Hot(s, f) && f != s.ring[0]
  {
    assert s.ring[0] in s.ring;
  }

  lemma {:induction false} FirstColdAfterRotate(s: State, q: seq<nat>)
    requires Inv(s) && s.ring != [] && (forall f {:trigger f in q} :: f in q ==> f in s.ring && f != s.ring[0])
    ensures s.ring[0] in s.back && s.back[s.ring[0]] in s.ptes
    ensures FirstCold(Rotate(s), q) == FirstCold(s, q)
  {
    RotateOk(s);
    if q != [] {
      assert q[0] in q;
      RotateHeat(s, q[0]);
      assert forall f :: f in q[1..] ==> f in q;
      FirstColdAfterRotate(s, q[1..]);
    }
  }

  /** A ring part-way through a scan: `q` is still to be looked at, `r` has been cooled. */
  ghost predicate Midway(s: State, q: seq<nat>, r: seq<nat>) {
    Inv(s) && s.ring != [] && s.ring == q + r && forall f {:trigger f in r} :: f in r ==> !Hot(s, f)
  }

  lemma MidwayStep(s: State, q: seq<nat>, r: seq<nat>)
    requires Midway(s, q, r) && q != [] && Hot(s, q[0])
    ensures s.ring[0] == q[0] && s.ring[0] in s.back && s.back[s.ring[0]] in s.ptes
    ensures Midway(Rotate(s), q[1..], r + [q[0]])
    ensures FirstCold(s, q) == 1 + FirstCold(Rotate(s), q[1..])
  {
    RotateOk(s);
    var t := Rotate(s);
    assert s.ring[1..] == q[1..] + r;
    assert t.ring == q[1..] + (r + [q[0]]);
    forall f | f in r + [q[0]] ensures !Hot(t, f) {
      assert f in s.ring;
      RotateHeat(s, f);
    }
    HeadTail(s.ring);
    assert forall f :: f in q[1..] ==> f in s.ring[1..];
    FirstColdAfterRotate(s, q[1..]);
  }

  lemma MidwayEnd(s: State, q: seq<nat>, r: seq<nat>)
    requires Midway(s, q, r) && (q == [] || !Hot(s, q[0]))
    ensures FirstCold(s, q) == 0 && Scan(s) == s
  {
    if q == [] { assert r[0] in r; }
  }

  lemma Spliced(q: seq<nat>, r: seq<nat>, k: nat)
    requires 0 < k <= |q|
    ensures q[1..][k - 1..] + (r + [q[0]]) + q[1..][..k - 1] == q[k..] + r + q[..k]
  {}

  lemma {:induction false} ScanFrom(s: State, q: seq<nat>, r: seq<nat>)
    requires Midway(s, q, r)
    ensures var k := FirstCold(s, q); Scan(s).ring == q[k..] + r + q[..k]
    decreases |q|
  {
    if q != [] && Hot(s, q[0]) {
      MidwayStep(s, q, r);
      ScanFrom(Rotate(s), q[1..], r + [q[0]]);
      Spliced(q, r, FirstCold(s, q));
    } else {
      MidwayEnd(s, q, r);
      assert q[0..] + r + q[..0] == q + r;
    }
  }

  lemma Turned(q: seq<nat>, k: nat)
    requires q != [] && k <= |q|
    ensures q[k..] + [] + q[..k] == q[k..] + q[..k]
    ensures (q[k..] + q[..k])[0] == if k < |q| then q[k] else q[0]
  {}

  /** Each page is passed over at most once, the ring is only rotated, and the hand stops
      at the first page with a clear access bit. */
  lemma ScanStopsAtVictim(s: State)
    requires Inv(s) && s.ring != []
    ensures var k := FirstCold(s, s.ring);
      Scan(s).ring == s.ring[k..] + s.ring[..k] && Scan(s).ring[0] == Victim(s)
  {
    hide Inv, Memory, Scan, FirstCold, Hot;
    assert s.ring + [] == s.ring;
    ScanFrom(s, s.ring, []);
    Turned(s.ring, FirstCold(s, s.ring));
  }

  const NoPte := Pte(0, false, false, false, false, false, false, false, false, false, false)

  /** The entry a listed frame's back-pointer leads to. */
  function Entry(s: State, f: nat): Pte {
    if f in s.back && s.back[f] in s.ptes then s.ptes[s.back[f]] else NoPte
  }

  function Cooled(p: Pte, passed: bool): Pte { p.(a := p.a && !passed) }

  lemma RotateEntry(s: State, f: nat)
    requires Inv(s) && s.ring != [] && f in s.ring
    ensures s.ring[0] in s.back && s.back[s.ring[0]] in s.ptes
    ensures f in Rotate(s).ring && Entry(Rotate(s), f) == Cooled(Entry(s, f), f == s.ring[0])
  {
    assert s.ring[0] in s.ring;
    ListsRotate(s.ring, s.role, Listed);
  }

  lemma PrefixHas(q: seq<nat>, k: nat, f: nat)
    requires 0 < k <= |q|
    ensures f in q[..k] <==> f == q[0] || f in q[1..][..k - 1]
  {
    assert q[..k] == [q[0]] + q[1..][..k - 1];
  }

  lemma {:induction false} ScanEntryFrom(s: State, q: seq<nat>, r: seq<nat>, f: nat)
    requires Midway(s, q, r) && f in s.ring
    ensures Entry(Scan(s), f) == Cooled(Entry(s, f), f in q[..FirstCold(s, q)])
    decreases |q|
  {
    if q != [] && Hot(s, q[0]) {
      MidwayStep(s, q, r);
      var t := Rotate(s);
      RotateEntry(s, f);
      ScanEntryFrom(t, q[1..], r + [q[0]], f);
      PrefixHas(q, FirstCold(s, q), f);
    } else {
      MidwayEnd(s, q, r);
    }
  }

  /** A listed page loses its access bit exactly when the hand passed it, and its entry is
      otherwise untouched. */
  lemma ScanEntry(s: State, f: nat)
    requires Inv(s) && f in s.ring
    ensures Entry(Scan(s), f) == Cooled(Entry(s, f), f in s.ring[..FirstCold(s, s.ring)])
  {
    assert s.ring + [] == s.ring;
    ScanEntryFrom(s, s.ring, [], f);
  }
}
