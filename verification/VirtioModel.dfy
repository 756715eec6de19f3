/** The virtio disk driver and its device (kernel/virtio_disk.c; sections 2.6 and 5.2 of VIRTIO
    1.1): descriptors, the avail and used rings, and every interleaving of requests, interrupts
    and a device that takes requests in order and completes them in any order. */
module VirtioModel {

  const NUM: nat := 8
  const U16: nat := 65536

  datatype Addr = NoAddr | Op(i: nat) | Data(b: nat) | Status(i: nat)
  datatype Desc = Desc(addr: Addr, write: bool, more: bool, next: nat)
  datatype Cmd = Cmd(write: bool, sector: nat)
  datatype Info = Info(b: int, status: nat)

  /** How far a request has got. */
  datatype Stage =
    | Ready      // formatted, its head in the avail ring past the index
    | Posted     // avail->idx covers it
    | Taken      // the device has read it from the avail ring
    | Written    // the device has written status and used entry
    | Done       // used->idx covers it
    | Seen       // the interrupt handler has cleared b->disk

  datatype Req = Req(chain: seq<nat>, buf: nat, cmd: Cmd, stage: Stage)

  /** Who holds vdisk_lock. */
  datatype Lock = Idle | Publishing(h: nat) | InIntr

  datatype State = State(
    free: seq<bool>, desc: seq<Desc>, ops: seq<Cmd>, info: seq<Info>,
    avail: seq<nat>, availIdx: nat, used: seq<nat>, usedIdx: nat, usedSeen: nat,
    flags: map<nat, bool>,      // b->disk
    devIdx: nat,                // the device's place in the avail ring
    lock: Lock,
    // bookkeeping
    reqs: map<nat, Req>,        // requests under way, by head descriptor
    owner: seq<int>,            // the head of the chain a descriptor is in, or -1
    busy: map<nat, nat>,        // the head of the request a buffer is in
    taken: nat, waiting: seq<nat>,   // avail entries the device has read, and those it has not
    seen: nat, finished: seq<nat>,   // used entries the handler has read, and those it has not
    writing: int                     // the request whose used entry the device has written, or -1
  )

  /** The first free descriptor at or after `i`. */
  function First(free: seq<bool>, i: nat): (r: nat)
    requires i <= |free|
    ensures i <= r <= |free| && (r < |free| ==> free[r]) && forall j :: i <= j < r ==> !free[j]
    decreases |free| - i
  {
    if i == |free| || free[i] then i else First(free, i + 1)
  }

  function Take(free: seq<bool>): seq<bool> { var i := First(free, 0); if i < |free| then free[i := false] else free }

  /** The three descriptors alloc3_desc finds. */
  function Three(free: seq<bool>): (r: seq<nat>)
    ensures |r| == 3
  { [First(free, 0), First(Take(free), 0), First(Take(Take(free)), 0)] }

  /** alloc3_desc succeeds. */
  predicate HasThree(free: seq<bool>) { First(Take(Take(free)), 0) < |free| }

  lemma ThreeFree(free: seq<bool>)
    requires HasThree(free)
    ensures var c := Three(free);
      && c[0] < |free| && c[1] < |free| && c[2] < |free| && free[c[0]] && free[c[1]] && free[c[2]]
      && c[0] != c[1] && c[0] != c[2] && c[1] != c[2]
      && Take(Take(Take(free))) == free[c[0] := false][c[1] := false][c[2] := false]
  {
    assert First(free, 0) == |free| ==> Take(Take(free)) == free;
    assert First(Take(free), 0) == |free| ==> Take(Take(free)) == Take(free);
  }

  // ---- steps ----

  datatype Action =
    | Submit(b: nat, cmd: Cmd)   // virtio_disk_rw up to the avail ring entry
    | Publish                    // avail->idx += 1
    | DevTake                    // the device reads an avail entry
    | DevWrite(h: nat)           // the device writes status and a used entry
    | DevBump                    // the device increments used->idx
    | IntrStart
    | IntrStep                   // one turn of the handler's loop
    | IntrEnd
    | Finish(h: nat)             // the requester finds b->disk clear and frees its chain

  predicate Sized(s: State) {
    && |s.free| == NUM && |s.desc| == NUM && |s.ops| == NUM && |s.info| == NUM && |s.avail| == NUM && |s.used| == NUM
      && |s.owner| == NUM
  }

  predicate Enabled(s: State, a: Action) {
    Sized(s) &&
    match a
    case Submit(b, _) => s.lock.Idle? && b !in s.busy && HasThree(s.free)
    case Publish => s.lock.Publishing? && s.lock.h in s.reqs
    case DevTake => s.devIdx != s.availIdx && s.avail[s.devIdx % NUM] in s.reqs
    case DevWrite(h) => h in s.reqs && s.reqs[h].stage.Taken? && s.writing == -1 && h < NUM
    case DevBump => s.writing in s.reqs
    case IntrStart => s.lock.Idle?
    case IntrStep => s.lock.InIntr? && s.usedSeen != s.usedIdx
    case IntrEnd => s.lock.InIntr? && s.usedSeen == s.usedIdx
    case Finish(h) => s.lock.Idle? && h in s.reqs && s.reqs[h].buf in s.flags && !s.flags[s.reqs[h].buf]
  }

  function Mark(s: State, h: nat, g: Stage): State
    requires h in s.reqs
  {
    s.(reqs := s.reqs[h := s.reqs[h].(stage := g)])
  }

  /** kernel/virtio_disk.c:238-272. */
  function Submitted(s: State, b: nat, cmd: Cmd): State
    requires Sized(s) && HasThree(s.free)
  {
    ThreeFree(s.free);
    var c := Three(s.free);
    s.(free := Take(Take(Take(s.free))),
       desc := s.desc[c[0] := Desc(Op(c[0]), false, true, c[1])][c[1] := Desc(Data(b), !cmd.write, true, c[2])]
                     [c[2] := Desc(Status(c[0]), true, false, 0)],
       ops := s.ops[c[0] := cmd], info := s.info[c[0] := Info(b, 255)], flags := s.flags[b := true],
       avail := s.avail[s.availIdx % NUM := c[0]], lock := Publishing(c[0]),
       reqs := s.reqs[c[0] := Req(c, b, cmd, Ready)], owner := s.owner[c[0] := c[0]][c[1] := c[0]][c[2] := c[0]],
       busy := s.busy[b := c[0]])
  }

  const NoDesc := Desc(NoAddr, false, false, 0)

  /** kernel/virtio_disk.c:288-289: the chain goes back, found by following the descriptors. */
  function Freed(s: State, h: nat): State
    requires Sized(s) && h in s.reqs && |s.reqs[h].chain| == 3 && forall k :: 0 <= k < 3 ==> s.reqs[h].chain[k] < NUM
    requires h < NUM
  {
    var c := s.reqs[h].chain;
    s.(free := s.free[c[0] := true][c[1] := true][c[2] := true],
       desc := s.desc[c[0] := NoDesc][c[1] := NoDesc][c[2] := NoDesc],
       info := s.info[h := s.info[h].(b := -1)], reqs := s.reqs - {h},
       owner := s.owner[c[0] := -1][c[1] := -1][c[2] := -1], busy := s.busy - {s.reqs[h].buf})
  }

  predicate Chained(s: State, h: nat) {
    h < NUM && h in s.reqs && |s.reqs[h].chain| == 3 && forall k :: 0 <= k < 3 ==> s.reqs[h].chain[k] < NUM
  }

  function Next(s: State, a: Action): State
    requires Enabled(s, a)
  {
    match a
    case Submit(b, cmd) => Submitted(s, b, cmd)
    case Publish => Mark(s, s.lock.h, Posted).(availIdx := (s.availIdx + 1) % U16, lock := Idle,
      waiting := s.waiting + [s.lock.h])
    case DevTake =>
      Mark(s, s.avail[s.devIdx % NUM], Taken).(devIdx := (s.devIdx + 1) % U16, taken := s.taken + 1,
        waiting := if s.waiting == [] then [] else s.waiting[1..])
    case DevWrite(h) =>
      Mark(s, h, Written).(used := s.used[s.usedIdx % NUM := h], info := s.info[h := s.info[h].(status := 0)],
        writing := h)
    case DevBump => Mark(s, s.writing, Done).(usedIdx := (s.usedIdx + 1) % U16, finished := s.finished + [s.writing],
      writing := -1)
    case IntrStart => s.(lock := InIntr)
    case IntrStep =>
      var id := s.used[s.usedSeen % NUM];
      if id < NUM && id in s.reqs && s.info[id].b >= 0 then
        Mark(s, id, Seen).(flags := s.flags[s.info[id].b := false], usedSeen := (s.usedSeen + 1) % U16,
                           seen := s.seen + 1, finished := if s.finished == [] then [] else s.finished[1..])
      else s
    case IntrEnd => s.(lock := Idle)
    case Finish(h) => if Chained(s, h) then Freed(s, h) else s
  }

  // ---- the invariant ----

  predicate Completed(g: Stage) { g.Written? || g.Done? || g.Seen? }

  /** A request owns three descriptors that say what was asked, and its buffer is marked as with
      the disk until the handler has seen its completion. */
  ghost predicate ReqOk(desc: seq<Desc>, ops: seq<Cmd>, info: seq<Info>, flags: map<nat, bool>, owner: seq<int>,
          busy: map<nat, nat>, h: nat, r: Req) {
    && |desc| == |ops| == |info| == |owner| == NUM && |r.chain| == 3
    && var i, j, k := r.chain[0], r.chain[1], r.chain[2];
      && h == i < NUM && j < NUM && k < NUM && i != j && i != k && j != k
      && owner[i] == h && owner[j] == h && owner[k] == h
      && desc[i] == Desc(Op(h), false, true, j) && desc[j] == Desc(Data(r.buf), !r.cmd.write, true, k)
        && desc[k] == Desc(Status(h), true, false, 0)
      && ops[h] == r.cmd && info[h].b == r.buf && info[h].status == (if Completed(r.stage) then 0 else 255)
      && r.buf in flags && flags[r.buf] == !r.stage.Seen?
      && r.buf in busy && busy[r.buf] == h
  }

  ghost predicate Asked(s: State, h: nat) {
    h in s.reqs ==> ReqOk(s.desc, s.ops, s.info, s.flags, s.owner, s.busy, h, s.reqs[h])
  }

  /** A descriptor is free, or in the chain of exactly one request. */
  ghost predicate OwnerOk(free: seq<bool>, owner: seq<int>, reqs: map<nat, Req>, d: nat) {
    d < |free| && d < |owner| ==>
      if free[d] then owner[d] == -1 else owner[d] >= 0 && owner[d] in reqs && d in reqs[owner[d] as nat].chain
  }

  ghost predicate BusyOk(busy: map<nat, nat>, reqs: map<nat, Req>, b: nat)
  {
    b in busy ==> busy[b] in reqs && reqs[busy[b]].buf == b
  }

  /** The entries of a ring from `start` on are the requests at a stage, in the order they came. */
  ghost predicate Queue(ring: seq<nat>, start: nat, q: seq<nat>, reqs: map<nat, Req>, g: Stage) {
    && |ring| == NUM
    && (forall k {:trigger q[k]} :: 0 <= k < |q| ==>
      ring[(start + k) % NUM] == q[k] && q[k] in reqs && reqs[q[k]].stage == g)
    && (forall j, k :: 0 <= j < k < |q| ==> q[j] != q[k])
    && (forall h {:trigger h in reqs} :: h in reqs && reqs[h].stage == g ==> h in q)
  }

  ghost predicate IdxOk(s: State) {
    && s.devIdx == s.taken % U16 && s.availIdx == (s.taken + |s.waiting|) % U16
    && s.usedSeen == s.seen % U16 && s.usedIdx == (s.seen + |s.finished|) % U16
  }

  ghost predicate LockOk(s: State) {
    && |s.avail| == NUM && (s.lock.Publishing? ==>
      s.lock.h in s.reqs && s.reqs[s.lock.h].stage == Ready && s.avail[(s.taken + |s.waiting|) % NUM] == s.lock.h)
    && (forall h {:trigger h in s.reqs} :: h in s.reqs && s.reqs[h].stage == Ready ==> s.lock == Publishing(h))
  }

  ghost predicate WriteOk(s: State) {
    && |s.used| == NUM && s.writing >= -1
    && (s.writing >= 0 ==>
          && s.writing in s.reqs && s.reqs[s.writing as nat].stage == Written
          && s.used[(s.seen + |s.finished|) % NUM] == s.writing)
    && (forall h {:trigger h in s.reqs} :: h in s.reqs && s.reqs[h].stage == Written ==> s.writing == h)
  }

  ghost predicate Inv(s: State) {
    && Sized(s) && IdxOk(s) && LockOk(s) && WriteOk(s)
    && (forall h: nat {:trigger Asked(s, h)} :: Asked(s, h))
    && (forall d: nat {:trigger OwnerOk(s.free, s.owner, s.reqs, d)} :: OwnerOk(s.free, s.owner, s.reqs, d))
    && (forall b: nat {:trigger BusyOk(s.busy, s.reqs, b)} :: BusyOk(s.busy, s.reqs, b))
    && Queue(s.avail, s.taken, s.waiting, s.reqs, Posted) && Queue(s.used, s.seen, s.finished, s.reqs, Done)
  }

  // ---- the rings ----

  lemma {:induction false} SameSize(q: seq<nat>, a: set<nat>)
    requires (forall j, k :: 0 <= j < k < |q| ==> q[j] != q[k]) && forall x :: x in q ==> x in a
    ensures |q| <= |a|
  {
    if q != [] {
      var x, p := q[|q| - 1], q[..|q| - 1];
      forall y | y in p ensures y in a - {x} { assert y in q; }
      assert x in q;
      SameSize(p, a - {x});
    }
  }

  /** A queue of descriptors that leaves one out is shorter than the ring. */
  lemma QueueFits(q: seq<nat>, x: nat)
    requires (forall j, k :: 0 <= j < k < |q| ==> q[j] != q[k]) && x < NUM && x !in q && forall h :: h in q ==> h < NUM
    ensures |q| < NUM
  {
    var all: set<nat> := {0, 1, 2, 3, 4, 5, 6, 7};
    SameSize(q, all - {x});
    assert |all| == 8;
  }

  /** Indices that wrap at 2^16 name the same ring entries as counters that do not. */
  lemma Wraps(n: nat)
    ensures n % U16 % NUM == n % NUM && (n % U16 + 1) % U16 == (n + 1) % U16
  {
  }

  lemma WrapsApart(n: nat, j: nat, k: nat)
    requires j < k < NUM
    ensures n % U16 != (n + k) % U16 && (n + j) % NUM != (n + k) % NUM
  {
  }

  lemma Heads(s: State)
    requires Inv(s)
    ensures forall h: nat :: h in s.reqs ==> h < NUM && s.owner[h] == h && !s.free[h]
  {
    hide Queue, LockOk, WriteOk, IdxOk;
    forall h: nat | h in s.reqs ensures h < NUM && s.owner[h] == h && !s.free[h] {
      assert Asked(s, h);
      assert OwnerOk(s.free, s.owner, s.reqs, h);
    }
  }

  /** Writing a ring entry just past a queue leaves the queue as it is. */
  lemma QueueWrite(ring: seq<nat>, start: nat, q: seq<nat>, reqs: map<nat, Req>, g: Stage, x: nat)
    requires Queue(ring, start, q, reqs, g) && |q| < NUM
    ensures Queue(ring[(start + |q|) % NUM := x], start, q, reqs, g)
  {
    forall k | 0 <= k < |q| ensures ring[(start + |q|) % NUM := x][(start + k) % NUM] == q[k] {
      WrapsApart(start, k, |q|);
    }
  }

  /** A change of stage that neither leaves nor enters `g` leaves its queue as it is. */
  lemma QueueMark(ring: seq<nat>, start: nat, q: seq<nat>, reqs: map<nat, Req>, g: Stage, h: nat, r: Req)
    requires Queue(ring, start, q, reqs, g) && (h in reqs ==> reqs[h].stage != g) && r.stage != g
    ensures Queue(ring, start, q, reqs[h := r], g)
  {
    forall k | 0 <= k < |q| ensures q[k] != h { assert q[k] in reqs; }
  }

  lemma QueueAdd(ring: seq<nat>, start: nat, q: seq<nat>, reqs: map<nat, Req>, g: Stage, h: nat, r: Req)
    requires Queue(ring, start, q, reqs, g) && h in reqs && reqs[h].stage != g && r.stage == g
    requires ring[(start + |q|) % NUM] == h
    ensures Queue(ring, start, q + [h], reqs[h := r], g)
  {
    forall k | 0 <= k < |q| ensures q[k] != h { assert q[k] in reqs; }
    forall x | x in reqs[h := r] && reqs[h := r][x].stage == g ensures x in q + [h] { if x != h { assert x in reqs; } }
  }

  lemma QueueTake(ring: seq<nat>, start: nat, q: seq<nat>, reqs: map<nat, Req>, g: Stage, r: Req)
    requires Queue(ring, start, q, reqs, g) && q != [] && r.stage != g
    ensures ring[start % NUM] == q[0] && q[0] in reqs && reqs[q[0]].stage == g
    ensures Queue(ring, start + 1, q[1..], reqs[q[0] := r], g)
  {
    var n := reqs[q[0] := r];
    assert ring[(start + 0) % NUM] == q[0];
    forall k | 0 <= k < |q[1..]| ensures ring[(start + 1 + k) % NUM] == q[1..][k] && q[1..][k] in n
      && n[q[1..][k]].stage == g {
      assert ring[(start + (k + 1)) % NUM] == q[k + 1];
    }
    forall x | x in n && n[x].stage == g ensures x in q[1..] { assert x in q; assert x != q[0]; }
  }

  lemma QueueDrop(ring: seq<nat>, start: nat, q: seq<nat>, reqs: map<nat, Req>, g: Stage, h: nat)
    requires Queue(ring, start, q, reqs, g) && h in reqs && reqs[h].stage != g
    ensures Queue(ring, start, q, reqs - {h}, g)
  {
    forall k | 0 <= k < |q| ensures q[k] != h { assert q[k] in reqs; }
  }

  // ---- every step keeps the invariant ----

  /** The part of the invariant about requests, descriptors and buffers. */
  ghost predicate Parts(s: State) {
    && Sized(s) && (forall h: nat {:trigger Asked(s, h)} :: Asked(s, h))
    && (forall d: nat {:trigger OwnerOk(s.free, s.owner, s.reqs, d)} :: OwnerOk(s.free, s.owner, s.reqs, d))
    && (forall b: nat {:trigger BusyOk(s.busy, s.reqs, b)} :: BusyOk(s.busy, s.reqs, b))
  }

  /** A request moves to another stage. */
  lemma MarkParts(s: State, t: State, h: nat, g: Stage)
    requires Inv(s) && Sized(t) && h in s.reqs && h < NUM && t.reqs == s.reqs[h := s.reqs[h].(stage := g)]
    requires t.free == s.free && t.desc == s.desc && t.ops == s.ops && t.owner == s.owner && t.busy == s.busy
    requires t.info == s.info[h := Info(s.info[h].b, if Completed(g) then 0 else 255)]
    requires t.flags == s.flags[s.reqs[h].buf := !g.Seen?]
    ensures Parts(t)
  {
    hide Queue, LockOk, WriteOk, IdxOk;
    assert Asked(s, h);
    forall x: nat ensures Asked(t, x) { assert Asked(s, x); }
    forall d: nat ensures OwnerOk(t.free, t.owner, t.reqs, d) { assert OwnerOk(s.free, s.owner, s.reqs, d); }
    forall b: nat ensures BusyOk(t.busy, t.reqs, b) { assert BusyOk(s.busy, s.reqs, b); }
  }

  /** The move changes no flag and no status but where the stage says so. */
  lemma MarkOnly(s: State, h: nat, g: Stage)
    requires Inv(s) && h in s.reqs && h < NUM && Completed(g) == Completed(s.reqs[h].stage)
    requires g.Seen? == s.reqs[h].stage.Seen?
    ensures s.info[h := Info(s.info[h].b, if Completed(g) then 0 else 255)] == s.info
    ensures s.flags[s.reqs[h].buf := !g.Seen?] == s.flags
  {
    assert Asked(s, h);
  }

  lemma PublishInv(s: State)
    requires Inv(s) && Enabled(s, Publish)
    ensures Inv(Next(s, Publish))
  {
    hide Asked, OwnerOk, BusyOk, Queue;
    var t, h := Next(s, Publish), s.lock.h;
    Heads(s);
    MarkOnly(s, h, Posted);
    MarkParts(s, t, h, Posted);
    Wraps(s.taken + |s.waiting|);
    QueueAdd(s.avail, s.taken, s.waiting, s.reqs, Posted, h, s.reqs[h].(stage := Posted));
    QueueMark(s.used, s.seen, s.finished, s.reqs, Done, h, s.reqs[h].(stage := Posted));
  }

  lemma TakeInv(s: State)
    requires Inv(s) && Enabled(s, DevTake)
    ensures Inv(Next(s, DevTake)) && s.waiting != [] && s.avail[s.devIdx % NUM] == s.waiting[0]
  {
    hide Asked, OwnerOk, BusyOk, Queue, IdxOk, LockOk, WriteOk;
    TakeReads(s);
    var t, h := Next(s, DevTake), s.waiting[0];
    var r := s.reqs[h].(stage := Taken);
    QueueTake(s.avail, s.taken, s.waiting, s.reqs, Posted, r);
    MarkOnly(s, h, Taken);
    MarkParts(s, t, h, Taken);
    QueueMark(s.used, s.seen, s.finished, s.reqs, Done, h, r);
    TakeIdx(s);
  }

  lemma TakeReads(s: State)
    requires Inv(s) && Enabled(s, DevTake)
    ensures s.waiting != [] && s.avail[s.devIdx % NUM] == s.waiting[0] && s.waiting[0] in s.reqs && s.waiting[0] < NUM
    ensures s.reqs[s.waiting[0]].stage == Posted
  {
    hide Asked, OwnerOk, BusyOk, LockOk, WriteOk;
    assert s.waiting != [];
    Heads(s);
    Wraps(s.taken);
    assert s.avail[(s.taken + 0) % NUM] == s.waiting[0];
  }

  lemma TakeIdx(s: State)
    requires Inv(s) && Enabled(s, DevTake) && s.waiting != [] && s.avail[s.devIdx % NUM] == s.waiting[0]
      && s.waiting[0] in s.reqs && s.reqs[s.waiting[0]].stage == Posted
    ensures var t := Next(s, DevTake); IdxOk(t) && LockOk(t) && WriteOk(t)
  {
    hide Asked, OwnerOk, BusyOk, Queue;
    Wraps(s.taken);
    assert s.taken + 1 + |s.waiting[1..]| == s.taken + |s.waiting|;
  }

  lemma WriteInv(s: State, h: nat)
    requires Inv(s) && Enabled(s, DevWrite(h))
    ensures Inv(Next(s, DevWrite(h))) && |s.finished| < NUM
  {
    hide Asked, OwnerOk, BusyOk;
    var t := Next(s, DevWrite(h));
    Heads(s);
    assert h !in s.finished;
    QueueFits(s.finished, h);
    hide Queue;
    Wraps(s.seen + |s.finished|);
    var r := s.reqs[h].(stage := Written);
    NotSeen(s, h);
    MarkParts(s, t, h, Written);
    QueueMark(s.avail, s.taken, s.waiting, s.reqs, Posted, h, r);
    QueueMark(s.used, s.seen, s.finished, s.reqs, Done, h, r);
    QueueWrite(s.used, s.seen, s.finished, t.reqs, Done, h);
  }

  lemma NotSeen(s: State, h: nat)
    requires Inv(s) && h in s.reqs && !s.reqs[h].stage.Seen?
    ensures s.flags[s.reqs[h].buf := true] == s.flags
  {
    assert Asked(s, h);
  }

  lemma BumpInv(s: State)
    requires Inv(s) && Enabled(s, DevBump)
    ensures Inv(Next(s, DevBump))
  {
    hide Asked, OwnerOk, BusyOk, Queue;
    var t, h: nat := Next(s, DevBump), s.writing;
    Heads(s);
    Wraps(s.seen + |s.finished|);
    var r := s.reqs[h].(stage := Done);
    MarkOnly(s, h, Done);
    MarkParts(s, t, h, Done);
    QueueAdd(s.used, s.seen, s.finished, s.reqs, Done, h, r);
    QueueMark(s.avail, s.taken, s.waiting, s.reqs, Posted, h, r);
  }

  /** What the handler reads is the head of a request whose buffer it may release. */
  lemma IntrReads(s: State)
    requires Inv(s) && Enabled(s, IntrStep)
    ensures s.finished != [] && var id := s.used[s.usedSeen % NUM];
      && id == s.finished[0] && id < NUM && id in s.reqs && s.reqs[id].stage == Done
      && s.info[id].status == 0 && s.info[id].b == s.reqs[id].buf && s.reqs[id].buf in s.flags
        && s.flags[s.reqs[id].buf]
  {
    assert s.finished != [];
    Wraps(s.seen);
    QueueTake(s.used, s.seen, s.finished, s.reqs, Done, s.reqs[s.finished[0]].(stage := Seen));
    assert Asked(s, s.finished[0]);
  }

  lemma IntrInv(s: State)
    requires Inv(s) && Enabled(s, IntrStep)
    ensures Inv(Next(s, IntrStep))
  {
    hide Asked, OwnerOk, BusyOk, Queue;
    IntrReads(s);
    var t, h := Next(s, IntrStep), s.finished[0];
    Wraps(s.seen);
    var r := s.reqs[h].(stage := Seen);
    QueueTake(s.used, s.seen, s.finished, s.reqs, Done, r);
    assert s.info[h := Info(s.info[h].b, 0)] == s.info;
    MarkParts(s, t, h, Seen);
    QueueMark(s.avail, s.taken, s.waiting, s.reqs, Posted, h, r);
  }

  lemma IntrLockInv(s: State, a: Action)
    requires Inv(s) && Enabled(s, a) && (a.IntrStart? || a.IntrEnd?)
    ensures Inv(Next(s, a))
  {
    hide OwnerOk, BusyOk, Queue, ReqOk;
    var t := Next(s, a);
    forall h: nat ensures Asked(t, h) { assert Asked(s, h); }
  }

  lemma FreshHead(s: State)
    requires Inv(s) && HasThree(s.free)
    ensures var c := Three(s.free);
      && c[0] < NUM && c[1] < NUM && c[2] < NUM && c[0] != c[1] && c[0] != c[2] && c[1] != c[2]
      && s.owner[c[0]] == -1 && s.owner[c[1]] == -1 && s.owner[c[2]] == -1 && c[0] !in s.reqs
  {
    hide Queue, LockOk, WriteOk, IdxOk, BusyOk;
    ThreeFree(s.free);
    var c := Three(s.free);
    assert OwnerOk(s.free, s.owner, s.reqs, c[0]) && OwnerOk(s.free, s.owner, s.reqs, c[1])
      && OwnerOk(s.free, s.owner, s.reqs, c[2]);
    assert Asked(s, c[0]);
  }

  lemma SubmitAsked(s: State, b: nat, cmd: Cmd, x: nat)
    requires Inv(s) && HasThree(s.free) && b !in s.busy
    ensures Asked(Submitted(s, b, cmd), x)
  {
    hide Queue, LockOk, WriteOk, IdxOk, BusyOk, OwnerOk, First, Three, Take, ReqOk;
    FreshHead(s);
    assert Asked(s, x);
    var c, t := Three(s.free), Submitted(s, b, cmd);
    if x == c[0] {
      NewReqOk(s, t, b, cmd, c);
    } else if x in s.reqs {
      OldReqOk(s, t, b, cmd, c, x);
    }
  }

  ghost predicate Fresh(owner: seq<int>, c: seq<nat>) {
    && |owner| == NUM && |c| == 3 && c[0] < NUM && c[1] < NUM && c[2] < NUM
    && c[0] != c[1] && c[0] != c[2] && c[1] != c[2]
    && owner[c[0]] == -1 && owner[c[1]] == -1 && owner[c[2]] == -1
  }

  /** `t` is `s` with the chain `c` formatted for buffer `b`. */
  ghost predicate Formatted(s: State, t: State, b: nat, cmd: Cmd, c: seq<nat>)
    requires Sized(s) && Fresh(s.owner, c)
  {
    && t.desc == s.desc[c[0] := Desc(Op(c[0]), false, true, c[1])][c[1] := Desc(Data(b), !cmd.write, true, c[2])]
                       [c[2] := Desc(Status(c[0]), true, false, 0)]
    && t.ops == s.ops[c[0] := cmd] && t.info == s.info[c[0] := Info(b, 255)] && t.flags == s.flags[b := true]
    && t.owner == s.owner[c[0] := c[0]][c[1] := c[0]][c[2] := c[0]] && t.busy == s.busy[b := c[0]]
  }

  lemma NewReqOk(s: State, t: State, b: nat, cmd: Cmd, c: seq<nat>)
    requires Sized(s) && Fresh(s.owner, c) && Formatted(s, t, b, cmd, c)
    ensures ReqOk(t.desc, t.ops, t.info, t.flags, t.owner, t.busy, c[0], Req(c, b, cmd, Ready))
  {}

  lemma OldReqOk(s: State, t: State, b: nat, cmd: Cmd, c: seq<nat>, x: nat)
    requires Sized(s) && Fresh(s.owner, c) && Formatted(s, t, b, cmd, c) && x in s.reqs && b !in s.busy
    requires ReqOk(s.desc, s.ops, s.info, s.flags, s.owner, s.busy, x, s.reqs[x])
    ensures ReqOk(t.desc, t.ops, t.info, t.flags, t.owner, t.busy, x, s.reqs[x])
  {}

  lemma SubmitOwner(s: State, b: nat, cmd: Cmd, d: nat)
    requires Inv(s) && HasThree(s.free)
    ensures var t := Submitted(s, b, cmd); OwnerOk(t.free, t.owner, t.reqs, d)
  {
    hide Queue, LockOk, WriteOk, IdxOk, BusyOk, Asked, First;
    FreshHead(s);
    ThreeFree(s.free);
    assert OwnerOk(s.free, s.owner, s.reqs, d);
  }

  lemma SubmitParts(s: State, b: nat, cmd: Cmd)
    requires Inv(s) && HasThree(s.free) && b !in s.busy
    ensures Parts(Submitted(s, b, cmd))
  {
    hide Asked, OwnerOk, First, Three, Queue, LockOk, WriteOk, IdxOk;
    FreshHead(s);
    ThreeFree(s.free);
    var t := Submitted(s, b, cmd);
    forall x: nat ensures Asked(t, x) { SubmitAsked(s, b, cmd, x); }
    forall d: nat ensures OwnerOk(t.free, t.owner, t.reqs, d) { SubmitOwner(s, b, cmd, d); }
    forall x: nat ensures BusyOk(t.busy, t.reqs, x) { assert BusyOk(s.busy, s.reqs, x); }
  }

  /** The new head is in neither queue, and there is a ring entry for it. */
  lemma SubmitRoom(s: State)
    requires Inv(s) && HasThree(s.free)
    ensures |s.waiting| < NUM
  {
    hide Asked, OwnerOk, BusyOk, First, Three, Take, LockOk, WriteOk, IdxOk;
    FreshHead(s);
    Heads(s);
    QueueFits(s.waiting, Three(s.free)[0]);
  }

  lemma SubmitQueues(s: State, b: nat, cmd: Cmd)
    requires Inv(s) && HasThree(s.free)
    ensures var t := Submitted(s, b, cmd);
      Queue(t.avail, t.taken, t.waiting, t.reqs, Posted) && Queue(t.used, t.seen, t.finished, t.reqs, Done)
  {
    hide Asked, OwnerOk, BusyOk, First, Three, Take, Queue, LockOk, WriteOk;
    FreshHead(s);
    SubmitRoom(s);
    Wraps(s.taken + |s.waiting|);
    var t, h := Submitted(s, b, cmd), Three(s.free)[0];
    QueueWrite(s.avail, s.taken, s.waiting, s.reqs, Posted, h);
    QueueMark(t.avail, s.taken, s.waiting, s.reqs, Posted, h, t.reqs[h]);
    QueueMark(s.used, s.seen, s.finished, s.reqs, Done, h, t.reqs[h]);
  }

  lemma SubmitLock(s: State, b: nat, cmd: Cmd)
    requires Inv(s) && HasThree(s.free) && s.lock.Idle?
    ensures var t := Submitted(s, b, cmd); LockOk(t) && WriteOk(t) && IdxOk(t)
  {
    hide Asked, OwnerOk, BusyOk, First, Three, Take, Queue;
    FreshHead(s);
    Wraps(s.taken + |s.waiting|);
  }

  lemma SubmitInv(s: State, b: nat, cmd: Cmd)
    requires Inv(s) && Enabled(s, Submit(b, cmd))
    ensures Inv(Submitted(s, b, cmd)) && |s.waiting| < NUM
  {
    hide Asked, OwnerOk, BusyOk, First, Three, Take, Queue, LockOk, WriteOk, IdxOk, Submitted;
    SubmitRoom(s);
    SubmitParts(s, b, cmd);
    SubmitQueues(s, b, cmd);
    SubmitLock(s, b, cmd);
  }

  /** A buffer found clear is one whose own request the handler has seen. */
  lemma ClearIsSeen(s: State, h: nat)
    requires Inv(s) && Enabled(s, Finish(h))
    ensures s.reqs[h].stage == Seen && Chained(s, h)
  {
    assert Asked(s, h);
  }

  lemma FinishAsked(s: State, h: nat, x: nat)
    requires Inv(s) && Chained(s, h)
    ensures Asked(Freed(s, h), x)
  {
    hide Queue, LockOk, WriteOk, IdxOk, BusyOk, OwnerOk;
    assert Asked(s, x) && Asked(s, h);
  }

  lemma FinishOwner(s: State, h: nat, d: nat)
    requires Inv(s) && Chained(s, h)
    ensures var t := Freed(s, h); OwnerOk(t.free, t.owner, t.reqs, d)
  {
    hide Queue, LockOk, WriteOk, IdxOk, BusyOk;
    assert Asked(s, h);
    assert OwnerOk(s.free, s.owner, s.reqs, d);
    if d < NUM && !s.free[d] && s.owner[d] >= 0 { assert Asked(s, s.owner[d]); }
  }

  lemma FinishInv(s: State, h: nat)
    requires Inv(s) && Enabled(s, Finish(h))
    ensures Inv(Next(s, Finish(h)))
  {
    hide Asked, OwnerOk, Queue;
    ClearIsSeen(s, h);
    var t := Freed(s, h);
    forall x: nat ensures Asked(t, x) { FinishAsked(s, h, x); }
    forall d: nat ensures OwnerOk(t.free, t.owner, t.reqs, d) { FinishOwner(s, h, d); }
    forall b: nat ensures BusyOk(t.busy, t.reqs, b) { assert BusyOk(s.busy, s.reqs, b); }
    QueueDrop(s.avail, s.taken, s.waiting, s.reqs, Posted, h);
    QueueDrop(s.used, s.seen, s.finished, s.reqs, Done, h);
  }

  lemma NextInv(s: State, a: Action)
    requires Inv(s) && Enabled(s, a)
    ensures Inv(Next(s, a))
  {
    hide Inv, Enabled, Next;
    match a
    case Submit(b, cmd) => SubmitStep(s, b, cmd);
    case Publish => PublishInv(s);
    case DevTake => TakeInv(s);
    case DevWrite(h) => WriteInv(s, h);
    case DevBump => BumpInv(s);
    case IntrStep => IntrInv(s);
    case Finish(h) => FinishInv(s, h);
    case _ => IntrLockInv(s, a);
  }

  lemma SubmitStep(s: State, b: nat, cmd: Cmd)
    requires Inv(s) && Enabled(s, Submit(b, cmd))
    ensures Inv(Next(s, Submit(b, cmd)))
  {
    hide Inv, Submitted;
    SubmitInv(s, b, cmd);
  }

  // ---- runs ----

  /** virtio_disk_init leaves every descriptor free and the rings empty. */
  predicate Initial(s: State) {
    && Sized(s) && (forall d :: 0 <= d < NUM ==> s.free[d] && s.owner[d] == -1)
    && s.availIdx == s.usedIdx == s.usedSeen == s.devIdx == s.taken == s.seen == 0
    && s.waiting == [] && s.finished == [] && s.writing == -1 && s.lock == Idle && s.reqs == map[] && s.busy == map[]
  }

  ghost predicate Run(ss: seq<State>, acts: seq<Action>) {
    && |ss| == |acts| + 1 && Initial(ss[0])
    && forall k :: 0 <= k < |acts| ==> Enabled(ss[k], acts[k]) && ss[k + 1] == Next(ss[k], acts[k])
  }

  lemma {:induction false} RunInv(ss: seq<State>, acts: seq<Action>, n: nat)
    requires Run(ss, acts) && n < |ss|
    ensures Inv(ss[n])
  {
    if n > 0 {
      hide Inv, Enabled, Next, Initial;
      RunInv(ss, acts, n - 1);
      NextInv(ss[n - 1], acts[n - 1]);
    }
  }

  /** Free descriptors and the chains of the requests under way part the descriptors. */
  lemma DescriptorsParted(ss: seq<State>, acts: seq<Action>, n: nat, d: nat)
    requires Run(ss, acts) && n < |ss| && d < NUM
    ensures Sized(ss[n])
    ensures !ss[n].free[d] <==> exists h: nat :: h in ss[n].reqs && d in ss[n].reqs[h].chain
    ensures forall h: nat, k: nat ::
      h in ss[n].reqs && k in ss[n].reqs && d in ss[n].reqs[h].chain && d in ss[n].reqs[k].chain ==> h == k
  {
    RunInv(ss, acts, n);
    var s := ss[n];
    assert OwnerOk(s.free, s.owner, s.reqs, d);
    if !s.free[d] { assert d in s.reqs[s.owner[d] as nat].chain; }
    forall h: nat | h in s.reqs && d in s.reqs[h].chain ensures s.owner[d] == h { assert Asked(s, h); }
  }

  /** What the device finds by following the descriptors from a head. */
  datatype Order = NoOrder | Order(cmd: Cmd, buf: nat, into: bool, status: nat)

  function View(s: State, h: nat): Order
    requires Sized(s)
  {
    if h >= NUM || !s.desc[h].addr.Op? || s.desc[h].addr.i >= NUM || !s.desc[h].more
      || s.desc[h].next >= NUM then NoOrder else
    var d := s.desc[s.desc[h].next];
    if !d.addr.Data? || !d.more || d.next >= NUM || !s.desc[d.next].addr.Status?
      || s.desc[d.next].more then NoOrder else
    Order(s.ops[s.desc[h].addr.i], d.addr.b, d.write, s.desc[d.next].addr.i)
  }

  /** As long as a request is under way the device sees in its descriptors what was asked: the
      command, the buffer, the direction and its own status byte. */
  lemma DeviceSees(ss: seq<State>, acts: seq<Action>, n: nat, h: nat)
    requires Run(ss, acts) && n < |ss| && h in ss[n].reqs
    ensures Sized(ss[n]) && var r := ss[n].reqs[h]; View(ss[n], h) == Order(r.cmd, r.buf, !r.cmd.write, h)
  {
    RunInv(ss, acts, n);
    assert Asked(ss[n], h);
  }

  lemma RingsSame(s: State, a: Action)
    requires Enabled(s, a)
    ensures Sized(Next(s, a))
    ensures !a.DevWrite? ==> Next(s, a).used == s.used
    ensures !a.Submit? ==> Next(s, a).avail == s.avail
  {
    hide First;
  }

  lemma UnreadAvail(s: State, a: Action, k: nat)
    requires Inv(s) && Enabled(s, a) && k < |s.waiting|
    ensures Sized(Next(s, a)) && var i := (s.taken + k) % NUM; Next(s, a).avail[i] == s.avail[i] == s.waiting[k]
  {
    hide Asked, OwnerOk, BusyOk, First, LockOk, WriteOk;
    RingsSame(s, a);
    if a.Submit? {
      SubmitInv(s, a.b, a.cmd);
      Wraps(s.taken + |s.waiting|);
      WrapsApart(s.taken, k, |s.waiting|);
    }
  }

  lemma UnreadUsed(s: State, a: Action, k: nat)
    requires Inv(s) && Enabled(s, a) && k < |s.finished|
    ensures Sized(Next(s, a)) && var i := (s.seen + k) % NUM; Next(s, a).used[i] == s.used[i] == s.finished[k]
  {
    hide Asked, OwnerOk, BusyOk, First, LockOk, WriteOk, Submitted, Freed;
    RingsSame(s, a);
    if a.DevWrite? {
      WriteInv(s, a.h);
      Wraps(s.seen + |s.finished|);
      WrapsApart(s.seen, k, |s.finished|);
    }
  }

  /** No step overwrites a ring entry that its reader has not read. */
  lemma UnreadStay(ss: seq<State>, acts: seq<Action>, n: nat, k: nat)
    requires Run(ss, acts) && n < |acts|
    ensures Sized(ss[n]) && Sized(ss[n + 1])
    ensures k < |ss[n].waiting| ==> var i := (ss[n].taken + k) % NUM;
      ss[n + 1].avail[i] == ss[n].avail[i] == ss[n].waiting[k]
    ensures k < |ss[n].finished| ==> var i := (ss[n].seen + k) % NUM;
      ss[n + 1].used[i] == ss[n].used[i] == ss[n].finished[k]
  {
    hide Inv, Enabled, Next, Initial;
    RunInv(ss, acts, n);
    RunInv(ss, acts, n + 1);
    SizedInv(ss[n]);
    SizedInv(ss[n + 1]);
    if k < |ss[n].waiting| { UnreadAvail(ss[n], acts[n], k); }
    if k < |ss[n].finished| { UnreadUsed(ss[n], acts[n], k); }
  }

  lemma SizedInv(s: State)
    requires Inv(s)
    ensures Sized(s)
  {
  }

  /** A turn of the interrupt handler clears b->disk of the buffer whose request the entry is for,
      which was set until then, and of no other; the request leaves stage Done for good. */
  lemma HandlerClearsOne(ss: seq<State>, acts: seq<Action>, n: nat)
    requires Run(ss, acts) && n < |acts| && acts[n] == IntrStep
    ensures ss[n].finished != [] && Sized(ss[n])
    ensures var id := ss[n].finished[0];
      && id in ss[n].reqs && id < NUM && id in ss[n + 1].reqs
      && ss[n].info[id].status == 0 && ss[n].reqs[id].stage == Done && ss[n + 1].reqs[id].stage == Seen
      && ss[n].reqs[id].buf in ss[n].flags && ss[n].flags[ss[n].reqs[id].buf]
        && ss[n + 1].flags == ss[n].flags[ss[n].reqs[id].buf := false]
  {
    hide Inv;
    RunInv(ss, acts, n);
    IntrReads(ss[n]);
  }

  /** A buffer counts as with the disk exactly until its own completion has been seen. */
  lemma FlagMeansPending(ss: seq<State>, acts: seq<Action>, n: nat, b: nat)
    requires Run(ss, acts) && n < |ss| && b in ss[n].busy
    ensures var h := ss[n].busy[b];
      h in ss[n].reqs && ss[n].reqs[h].buf == b && b in ss[n].flags && (ss[n].flags[b] <==> ss[n].reqs[h].stage != Seen)
  {
    RunInv(ss, acts, n);
    assert BusyOk(ss[n].busy, ss[n].reqs, b);
    assert Asked(ss[n], ss[n].busy[b]);
  }

  lemma HeadsFew(s: State)
    requires Inv(s)
    ensures |s.finished| <= NUM && (s.usedSeen == s.usedIdx <==> s.finished == [])
  {
    hide OwnerOk, BusyOk, LockOk, WriteOk;
    Heads(s);
    SameSize(s.finished, {0, 1, 2, 3, 4, 5, 6, 7});
  }

  /** The handler stops only when it has seen every completion, wrapped indices or not. */
  lemma HandlerDrains(ss: seq<State>, acts: seq<Action>, n: nat)
    requires Run(ss, acts) && n < |acts| && acts[n] == IntrEnd
    ensures ss[n].finished == []
  {
    hide Inv, Next, Initial;
    RunInv(ss, acts, n);
    assert Enabled(ss[n], IntrEnd);
    HeadsFew(ss[n]);
  }
}
