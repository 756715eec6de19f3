/** The buffer cache (kernel/bio.c): which buffer holds which block, and in what order buffers
    are reused. */
module BufModel {
  import opened Params
  import Ring = LruRing
  import Swap = SwapModel

  datatype Buf = Buf(dev: nat, blockno: nat, valid: bool, refcnt: nat)

  /** `order` is the list from most to least recently released; `stamp` records when each buffer
      was last put in front, and `now` the next time. */
  datatype State = State(bufs: seq<Buf>, order: seq<nat>, stamp: seq<nat>, now: nat)

  predicate HasKey(b: Buf, dev: nat, blockno: nat) { b.dev == dev && b.blockno == blockno }
  predicate SameKey(a: Buf, b: Buf) { a.dev == b.dev && a.blockno == b.blockno }
  predicate InUse(b: Buf) { b.refcnt > 0 || b.valid }

  /** The first place in the list from `i` on that holds the block, or the end. */
  function Find(s: State, i: nat, dev: nat, blockno: nat): (r: nat)
    requires i <= |s.order|
    ensures i <= r <= |s.order|
    ensures forall j :: i <= j < r && s.order[j] < |s.bufs| ==> !HasKey(s.bufs[s.order[j]], dev, blockno)
    ensures r < |s.order| ==> s.order[r] < |s.bufs| && HasKey(s.bufs[s.order[r]], dev, blockno)
    decreases |s.order| - i
  {
    if i == |s.order| || (s.order[i] < |s.bufs| && HasKey(s.bufs[s.order[i]], dev, blockno)) then i
      else Find(s, i + 1, dev, blockno)
  }

  /** One past the last place below `n` that holds an unreferenced buffer, or 0. */
  function LastFree(s: State, n: nat): (r: nat)
    requires n <= |s.order|
    ensures r <= n && forall j :: r <= j < n && s.order[j] < |s.bufs| ==> s.bufs[s.order[j]].refcnt > 0
    ensures r > 0 ==> s.order[r - 1] < |s.bufs| && s.bufs[s.order[r - 1]].refcnt == 0
  {
    if n == 0 || (s.order[n - 1] < |s.bufs| && s.bufs[s.order[n - 1]].refcnt == 0) then n else LastFree(s, n - 1)
  }

  datatype Got = None | Got(s: State, b: nat)

  /** bget: the buffer of the block, or the one at the end of the list that nobody refers to. */
  function Get(s: State, dev: nat, blockno: nat): Got {
    var i := Find(s, 0, dev, blockno);
    if i < |s.order| then
      var b := s.order[i];
      Got(s.(bufs := s.bufs[b := s.bufs[b].(refcnt := s.bufs[b].refcnt + 1)]), b)
    else
    var j := LastFree(s, |s.order|);
    if j == 0 then None else Got(s.(bufs := s.bufs[s.order[j - 1] := Buf(dev, blockno, false, 1)]), s.order[j - 1])
  }

  /** bread marks what it read as valid. */
  function Fill(s: State, b: nat): State
    requires b < |s.bufs|
  {
    s.(bufs := s.bufs[b := s.bufs[b].(valid := true)])
  }

  /** The list with `b` moved to the front. */
  function ToFront(q: seq<nat>, b: nat): seq<nat> { [b] + Swap.Without(q, b) }

  function Release(s: State, b: nat): State
    requires b < |s.bufs| == |s.stamp| && s.bufs[b].refcnt > 0
  {
    var t := s.(bufs := s.bufs[b := s.bufs[b].(refcnt := s.bufs[b].refcnt - 1)]);
    if t.bufs[b].refcnt > 0 then t else t.(order := ToFront(s.order, b), stamp := s.stamp[b := s.now], now := s.now + 1)
  }

  function Pin(s: State, b: nat): State
    requires b < |s.bufs|
  {
    s.(bufs := s.bufs[b := s.bufs[b].(refcnt := s.bufs[b].refcnt + 1)])
  }

  function Unpin(s: State, b: nat): State
    requires b < |s.bufs| && s.bufs[b].refcnt > 0
  {
    s.(bufs := s.bufs[b := s.bufs[b].(refcnt := s.bufs[b].refcnt - 1)])
  }

  // ---- the invariant ----

  /** Of two buffers with one key, only the one nearer the front is in use. */
  ghost predicate PairOk(s: State, i: nat, j: nat)
    requires i < |s.order| && j < |s.order|
  {
    i < j ==>
      && s.order[i] < |s.bufs| == |s.stamp| && s.order[j] < |s.bufs| && s.order[i] != s.order[j]
      && s.stamp[s.order[i]] > s.stamp[s.order[j]]
      && (SameKey(s.bufs[s.order[i]], s.bufs[s.order[j]]) ==> !InUse(s.bufs[s.order[j]]))
  }

  ghost predicate Inv(s: State) {
    && |s.bufs| == |s.stamp| == NBUF
    && (forall b: nat {:trigger b in s.order} :: b in s.order <==> b < NBUF)
    && (forall b {:trigger s.stamp[b]} :: 0 <= b < NBUF ==> s.stamp[b] < s.now)
    && (forall i, j {:trigger PairOk(s, i, j)} :: 0 <= i < |s.order| && 0 <= j < |s.order| ==> PairOk(s, i, j))
  }

  lemma OrderDistinct(s: State)
    requires Inv(s)
    ensures Swap.Distinct(s.order)
  {
    forall i, j | 0 <= i < j < |s.order| ensures s.order[i] != s.order[j] { assert PairOk(s, i, j); }
  }

  lemma GetInv(s: State, dev: nat, blockno: nat)
    requires Inv(s) && Get(s, dev, blockno).Got?
    ensures var g := Get(s, dev, blockno);
      Inv(g.s) && g.b < NBUF && HasKey(g.s.bufs[g.b], dev, blockno) && g.s.bufs[g.b].refcnt > 0 && g.s.order == s.order
  {
    var g := Get(s, dev, blockno);
    var i, k := Find(s, 0, dev, blockno), LastFree(s, |s.order|);
    forall x, y | 0 <= x < |g.s.order| && 0 <= y < |g.s.order| ensures PairOk(g.s, x, y) {
      assert PairOk(s, x, y) && PairOk(s, y, x);
      if i < |s.order| {
        assert PairOk(s, x, i) && PairOk(s, i, y);
      } else {
        assert PairOk(s, x, k - 1) && PairOk(s, k - 1, y);
        assert s.order[x] in s.order && s.order[y] in s.order;
      }
    }
  }

  lemma ReleaseInv(s: State, b: nat)
    requires Inv(s) && b < NBUF && s.bufs[b].refcnt > 0
    ensures Inv(Release(s, b))
  {
    var t := Release(s, b);
    OrderDistinct(s);
    assert b in s.order;
    var p :| 0 <= p < |s.order| && s.order[p] == b;
    if s.bufs[b].refcnt > 1 {
      forall x, y | 0 <= x < |t.order| && 0 <= y < |t.order| ensures PairOk(t, x, y) { assert PairOk(s, x, y); }
    } else {
      Swap.WithoutHas(s.order, b);
      forall x, y | 0 <= x < |t.order| && 0 <= y < |t.order| ensures PairOk(t, x, y) { ReleasePair(s, b, p, x, y); }
    }
  }

  lemma ReleasePair(s: State, b: nat, p: nat, x: nat, y: nat)
    requires Inv(s) && b < NBUF && s.bufs[b].refcnt == 1 && p < |s.order| && s.order[p] == b
    requires x < |Release(s, b).order| && y < |Release(s, b).order|
    ensures PairOk(Release(s, b), x, y)
  {
    hide Swap.Without, Swap.Distinct, ToFront;
    OrderDistinct(s);
    FrontAt(s.order, p, x);
    FrontAt(s.order, p, y);
    var x', y' := WasAt(p, x), WasAt(p, y);
    assert PairOk(s, x', y') && PairOk(s, x', p) && PairOk(s, p, x') && PairOk(s, y', p) && PairOk(s, p, y');
    assert s.order[y'] in s.order && s.order[x'] in s.order;
  }

  /** Where the `k`th entry was before the `p`th was moved to the front. */
  function WasAt(p: nat, k: nat): nat { if k == 0 then p else if k <= p then k - 1 else k }

  lemma FrontAt(q: seq<nat>, p: nat, k: nat)
    requires Swap.Distinct(q) && p < |q| && k < |ToFront(q, q[p])|
    ensures |ToFront(q, q[p])| == |q| && ToFront(q, q[p])[k] == q[WasAt(p, k)]
  {
    Ring.WithoutAt(q, p);
  }

  lemma RefsInv(s: State, b: nat, r: nat)
    requires Inv(s) && b < NBUF && s.bufs[b].refcnt > 0
    ensures Inv(s.(bufs := s.bufs[b := s.bufs[b].(refcnt := r)])) && Inv(Fill(s, b))
  {
    var t, u := s.(bufs := s.bufs[b := s.bufs[b].(refcnt := r)]), Fill(s, b);
    forall x, y | 0 <= x < |s.order| && 0 <= y < |s.order| ensures PairOk(t, x, y) && PairOk(u, x, y) {
      assert PairOk(s, x, y);
    }
  }

  // ---- runs ----

  datatype Op = GetOp(dev: nat, blockno: nat) | FillOp(b: nat) | ReleaseOp(b: nat) | PinOp(b: nat) | UnpinOp(b: nat)

  /** Everything but bget is done to a buffer someone refers to. */
  predicate Legal(s: State, op: Op) {
    match op
    case GetOp(dev, blockno) => Get(s, dev, blockno).Got?
    case _ => op.b < |s.bufs| == |s.stamp| && s.bufs[op.b].refcnt > 0
  }

  function Step(s: State, op: Op): State
    requires Legal(s, op)
  {
    match op
    case GetOp(dev, blockno) => Get(s, dev, blockno).s
    case FillOp(b) => Fill(s, b)
    case ReleaseOp(b) => Release(s, b)
    case PinOp(b) => Pin(s, b)
    case UnpinOp(b) => Unpin(s, b)
  }

  /** binit: thirty blank buffers, the last one linked in front. */
  predicate Initial(s: State) {
    && |s.bufs| == |s.stamp| == |s.order| == s.now == NBUF
    && forall i :: 0 <= i < NBUF ==> s.bufs[i] == Buf(0, 0, false, 0) && s.stamp[i] == i && s.order[i] == NBUF - 1 - i
  }

  lemma InitialInv(s: State)
    requires Initial(s)
    ensures Inv(s)
  {
    forall b: nat | b < NBUF ensures b in s.order { assert s.order[NBUF - 1 - b] == b; }
    forall i, j | 0 <= i < |s.order| && 0 <= j < |s.order| ensures PairOk(s, i, j) {
      assert s.order[i] == NBUF - 1 - i && s.order[j] == NBUF - 1 - j;
      assert s.stamp[NBUF - 1 - i] == NBUF - 1 - i && s.bufs[NBUF - 1 - j] == Buf(0, 0, false, 0);
    }
  }

  ghost predicate Run(ss: seq<State>, ops: seq<Op>) {
    && |ss| == |ops| + 1 && Initial(ss[0])
    && forall k :: 0 <= k < |ops| ==> Legal(ss[k], ops[k]) && ss[k + 1] == Step(ss[k], ops[k])
  }

  lemma StepInv(s: State, op: Op)
    requires Inv(s) && Legal(s, op)
    ensures Inv(Step(s, op))
  {
    hide Inv;
    BufsSize(s);
    match op
    case GetOp(dev, blockno) => GetInv(s, dev, blockno);
    case FillOp(b) => RefsInv(s, b, 0);
    case ReleaseOp(b) => ReleaseInv(s, b);
    case PinOp(b) => RefsInv(s, b, s.bufs[b].refcnt + 1);
    case UnpinOp(b) => RefsInv(s, b, s.bufs[b].refcnt - 1);
  }

  lemma BufsSize(s: State)
    requires Inv(s)
    ensures |s.bufs| == |s.stamp| == NBUF
  {
  }

  lemma {:induction false} RunInv(ss: seq<State>, ops: seq<Op>, n: nat)
    requires Run(ss, ops) && n < |ss|
    ensures Inv(ss[n])
  {
    hide Inv, Legal, Step, Initial;
    if n == 0 {
      InitialInv(ss[0]);
    } else {
      RunInv(ss, ops, n - 1);
      StepInv(ss[n - 1], ops[n - 1]);
    }
  }

  /** At most one buffer that is referred to or holds data is for a given block. */
  lemma OneBufferPerBlock(ss: seq<State>, ops: seq<Op>, n: nat, a: nat, b: nat)
    requires Run(ss, ops) && n < |ss| && a < NBUF && b < NBUF && a != b
    ensures |ss[n].bufs| == NBUF
    ensures !(SameKey(ss[n].bufs[a], ss[n].bufs[b]) && InUse(ss[n].bufs[a]) && InUse(ss[n].bufs[b]))
  {
    RunInv(ss, ops, n);
    KeysDiffer(ss[n], a, b);
  }

  lemma KeysDiffer(s: State, a: nat, b: nat)
    requires Inv(s) && a < NBUF && b < NBUF && a != b
    ensures !(SameKey(s.bufs[a], s.bufs[b]) && InUse(s.bufs[a]) && InUse(s.bufs[b]))
  {
    assert a in s.order && b in s.order;
    var i, j :| 0 <= i < |s.order| && s.order[i] == a && 0 <= j < |s.order| && s.order[j] == b;
    assert PairOk(s, i, j) && PairOk(s, j, i);
  }

  /** The list always holds each of the buffers once. */
  lemma ListHoldsAll(ss: seq<State>, ops: seq<Op>, n: nat)
    requires Run(ss, ops) && n < |ss|
    ensures Swap.Distinct(ss[n].order) && forall b: nat :: b in ss[n].order <==> b < NBUF
  {
    RunInv(ss, ops, n);
    OrderDistinct(ss[n]);
  }

  /** A block that is not cached gets the unreferenced buffer that was released longest ago; bget
      gives up only when every buffer is referred to. */
  lemma RecyclesOldest(s: State, dev: nat, blockno: nat)
    requires Inv(s) && forall c :: 0 <= c < NBUF ==> !HasKey(s.bufs[c], dev, blockno)
    ensures Get(s, dev, blockno).None? <==> forall c :: 0 <= c < NBUF ==> s.bufs[c].refcnt > 0
    ensures Get(s, dev, blockno).Got? ==> var b := Get(s, dev, blockno).b;
      b < NBUF && s.bufs[b].refcnt == 0 && forall c :: 0 <= c < NBUF && c != b && s.bufs[c].refcnt == 0 ==>
        s.stamp[b] < s.stamp[c]
  {
    var i, k := Find(s, 0, dev, blockno), LastFree(s, |s.order|);
    forall c | 0 <= c < NBUF && s.bufs[c].refcnt == 0
      ensures k > 0 && (c == s.order[k - 1] || s.stamp[s.order[k - 1]] < s.stamp[c])
    {
      assert c in s.order;
      var x :| 0 <= x < |s.order| && s.order[x] == c;
      assert k > 0 ==> PairOk(s, x, k - 1);
    }
    if k > 0 { assert s.order[k - 1] in s.order; }
  }

  /** bunpin is only called by install_trans, which holds a reference of its own. */
  ghost predicate UnpinsHeld(ss: seq<State>, ops: seq<Op>) {
    |ss| == |ops| + 1 &&
    forall k :: 0 <= k < |ops| && ops[k].UnpinOp? && ops[k].b < |ss[k].bufs| ==> ss[k].bufs[ops[k].b].refcnt > 1
  }

  /** So a buffer falls free only by brelse, which stamps it: the age that decides what is recycled
      is the time since the last user let go. */
  lemma FreedByRelease(ss: seq<State>, ops: seq<Op>, n: nat, b: nat)
    requires Run(ss, ops) && UnpinsHeld(ss, ops) && n < |ops| && b < NBUF
    ensures |ss[n].bufs| == |ss[n + 1].bufs| == |ss[n].stamp| == |ss[n + 1].stamp| == NBUF
    ensures ss[n].bufs[b].refcnt > 0 && ss[n + 1].bufs[b].refcnt == 0 ==>
      ops[n] == ReleaseOp(b) && ss[n + 1].stamp[b] == ss[n].now
    ensures ss[n + 1].stamp[b] != ss[n].stamp[b] ==> ops[n] == ReleaseOp(b) && ss[n + 1].bufs[b].refcnt == 0
  {
    hide Inv, Get;
    RunInv(ss, ops, n);
    RunInv(ss, ops, n + 1);
    BufsSize(ss[n]);
    BufsSize(ss[n + 1]);
    if ops[n].GetOp? { GetRefs(ss[n], ops[n].dev, ops[n].blockno, b); }
  }

  /** bget takes references and gives none up. */
  lemma GetRefs(s: State, dev: nat, blockno: nat, b: nat)
    requires Get(s, dev, blockno).Got? && b < |s.bufs|
    ensures var t := Get(s, dev, blockno).s;
      |t.bufs| == |s.bufs| && t.bufs[b].refcnt >= s.bufs[b].refcnt && t.stamp == s.stamp
  {}

  /** What an operation adds to the references to buffer `b`: bget and bpin take one, brelse and
      bunpin give one back. */
  function Claims(s: State, op: Op, b: nat): int {
    match op
    case GetOp(dev, blockno) =>
      var g := Get(s, dev, blockno);
      if g.Got? && g.b == b then 1 else 0
    case FillOp(_) => 0
    case ReleaseOp(c) => if c == b then -1 else 0
    case PinOp(c) => if c == b then 1 else 0
    case UnpinOp(c) => if c == b then -1 else 0
  }

  /** References to buffer `b` taken and not given back in the first `n` operations. */
  ghost function Claimed(ss: seq<State>, ops: seq<Op>, n: nat, b: nat): int
    requires n <= |ops| && n <= |ss|
  {
    if n == 0 then 0 else Claimed(ss, ops, n - 1, b) + Claims(ss[n - 1], ops[n - 1], b)
  }

  lemma StepClaims(s: State, op: Op, b: nat)
    requires Inv(s) && Legal(s, op) && b < NBUF
    ensures |s.bufs| == |Step(s, op).bufs| == NBUF && Step(s, op).bufs[b].refcnt == s.bufs[b].refcnt + Claims(s, op, b)
  {
    hide Find, LastFree, ToFront, PairOk;
    InRange(s);
  }

  lemma InRange(s: State)
    requires Inv(s)
    ensures |s.bufs| == NBUF && forall i :: 0 <= i < |s.order| ==> s.order[i] < NBUF
  {
    forall i | 0 <= i < |s.order| ensures s.order[i] < NBUF { assert s.order[i] in s.order; }
  }

  /** b->refcnt is the number of references out: none is lost and none made up, so a buffer is never
      recycled under someone who holds it. */
  lemma {:induction false} RefsCounted(ss: seq<State>, ops: seq<Op>, n: nat, b: nat)
    requires Run(ss, ops) && n < |ss| && b < NBUF
    ensures |ss[n].bufs| == NBUF && ss[n].bufs[b].refcnt == Claimed(ss, ops, n, b)
  {
    hide Inv, Legal, Step, Get;
    if n > 0 {
      RefsCounted(ss, ops, n - 1, b);
      RunInv(ss, ops, n - 1);
      StepClaims(ss[n - 1], ops[n - 1], b);
    }
  }

  /** A cached block is found whatever else is in the list. */
  lemma FindsCached(s: State, dev: nat, blockno: nat, c: nat)
    requires Inv(s) && c < NBUF && HasKey(s.bufs[c], dev, blockno) && InUse(s.bufs[c])
    ensures Get(s, dev, blockno).Got? && Get(s, dev, blockno).b == c
  {
    assert c in s.order;
    var x :| 0 <= x < |s.order| && s.order[x] == c;
    var i := Find(s, 0, dev, blockno);
    assert PairOk(s, i, x);
  }

  /** Some buffer holds the contents of the block. */
  ghost predicate Cached(s: State, dev: nat, blockno: nat) {
    exists c {:trigger s.bufs[c]} :: 0 <= c < |s.bufs| && HasKey(s.bufs[c], dev, blockno) && s.bufs[c].valid
  }

  /** What bget returns holds data only if some buffer held the block's already: a recycled buffer
      is never taken for the new block's. */
  lemma GotIsValid(s: State, dev: nat, blockno: nat)
    requires Inv(s) && Get(s, dev, blockno).Got?
    ensures var g := Get(s, dev, blockno); g.b < |g.s.bufs| && (g.s.bufs[g.b].valid <==> Cached(s, dev, blockno))
  {
    BufsSize(s);
    GetInv(s, dev, blockno);
    if Cached(s, dev, blockno) {
      var c :| 0 <= c < |s.bufs| && HasKey(s.bufs[c], dev, blockno) && s.bufs[c].valid;
      FindsCached(s, dev, blockno, c);
    }
  }

  // ---- two devices on one disk ----

  /** The file system uses device 1 below SWAPBASE, swapping device 0 from there on. */
  predicate Proper(dev: nat, blockno: nat) { (dev == 1 && blockno < SWAPBASE) || (dev == 0 && blockno >= SWAPBASE) }

  ghost predicate ProperKeys(s: State) {
    forall b {:trigger s.bufs[b]} :: 0 <= b < |s.bufs| && InUse(s.bufs[b]) ==>
      Proper(s.bufs[b].dev, s.bufs[b].blockno)
  }

  lemma {:induction false} RunProper(ss: seq<State>, ops: seq<Op>, n: nat)
    requires Run(ss, ops) && n < |ss|
    requires forall k :: 0 <= k < |ops| && ops[k].GetOp? ==> Proper(ops[k].dev, ops[k].blockno)
    ensures ProperKeys(ss[n])
  {
    if n > 0 {
      RunProper(ss, ops, n - 1);
      RunInv(ss, ops, n - 1);
      BufsSize(ss[n - 1]);
      assert Legal(ss[n - 1], ops[n - 1]) && ss[n] == Step(ss[n - 1], ops[n - 1]);
      StepProper(ss[n - 1], ops[n - 1]);
    }
  }

  lemma StepProper(s: State, op: Op)
    requires Legal(s, op) && ProperKeys(s) && (op.GetOp? ==> Proper(op.dev, op.blockno))
    ensures ProperKeys(Step(s, op))
  {
  }

  /** Two buffers never cache one sector: the device number is not part of the address on disk. */
  lemma NoAliases(ss: seq<State>, ops: seq<Op>, n: nat, a: nat, b: nat)
    requires Run(ss, ops) && n < |ss| && a < NBUF && b < NBUF && a != b
    requires forall k :: 0 <= k < |ops| && ops[k].GetOp? ==> Proper(ops[k].dev, ops[k].blockno)
    ensures |ss[n].bufs| == NBUF
    ensures InUse(ss[n].bufs[a]) && InUse(ss[n].bufs[b]) ==> ss[n].bufs[a].blockno != ss[n].bufs[b].blockno
  {
    RunProper(ss, ops, n);
    OneBufferPerBlock(ss, ops, n, a, b);
  }
}
