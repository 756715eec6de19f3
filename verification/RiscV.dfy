/** Page-table words and address arithmetic of kernel/riscv.h.

    A word is an unsigned number, so a right shift by k divides by 2^k, a left shift
    multiplies by it, and masking with 2^k - 1 takes the remainder. */
module RiscV {
  const PGSIZE: nat := 4096
  const MAXVA: nat := 0x40_0000_0000

  // bit numbers of the flags in a page-table entry
  const V := 0
  const R := 1
  const U := 4
  const A := 6
  const SWAPPED := 9

  /** A page-table entry by fields: the page number and the ten flag bits, low bit first. */
  datatype Pte = Pte(ppn: nat, v: bool, r: bool, w: bool, x: bool, u: bool,
                     g: bool, a: bool, d: bool, s: bool, swapped: bool)

  function Pow2(k: nat): (p: nat)
    ensures p > 0
  {
    if k == 0 then 1 else 2 * Pow2(k - 1)
  }

  predicate Bit(word: nat, k: nat) {
    if k == 0 then word % 2 == 1 else Bit(word / 2, k - 1)
  }

  /** `word & ~(1 << k)` */
  function Clear(word: nat, k: nat): nat {
    if k == 0 then word / 2 * 2 else word % 2 + 2 * Clear(word / 2, k - 1)
  }

  /** `word | (1 << k)` */
  function Set(word: nat, k: nat): nat {
    if k == 0 then word / 2 * 2 + 1 else word % 2 + 2 * Set(word / 2, k - 1)
  }

  function PA2PTE(pa: nat): nat { pa / Pow2(12) * Pow2(10) }
  function PTE2PA(word: nat): nat { word / Pow2(10) * Pow2(12) }
  function PteFlags(word: nat): nat { word % Pow2(10) }

  function Decode(word: nat): Pte {
    Pte(word / Pow2(10), Bit(word, 0), Bit(word, 1), Bit(word, 2), Bit(word, 3), Bit(word, 4),
        Bit(word, 5), Bit(word, 6), Bit(word, 7), Bit(word, 8), Bit(word, 9))
  }

  /** The word swapout stores over `word`. */
  function SwapOutWord(word: nat, slot: nat): nat {
    slot * Pow2(10) + Set(Clear(Clear(PteFlags(word), V), A), SWAPPED)
  }

  /** The word swapin stores over `word`. */
  function SwapInWord(word: nat, pa: nat): nat {
    PA2PTE(pa) + Set(Clear(PteFlags(word), SWAPPED), V)
  }

  /** The word mappages stores: `PA2PTE(pa) | perm | PTE_V`. */
  function MapWord(pa: nat, perm: nat): nat { PA2PTE(pa) + Set(perm, V) }

  /** The flags uvmcopy gives mappages for the copy of a page whose entry is `word`. */
  function CopyFlags(word: nat): nat {
    if Bit(word, V) then PteFlags(word) else Set(Clear(PteFlags(word), SWAPPED), V)
  }

  /** The flags uvmalloc gives mappages: `PTE_R | PTE_U | xperm`. */
  function UserFlags(w: bool, x: bool): nat {
    var xperm := (if w then 4 else 0) + (if x then 8 else 0);
    Set(Set(xperm, R), U)
  }

  lemma BitOfClear(word: nat, k: nat, j: nat)
    ensures Bit(Clear(word, k), j) == (j != k && Bit(word, j))
  {}

  lemma BitOfSet(word: nat, k: nat, j: nat)
    ensures Bit(Set(word, k), j) == (j == k || Bit(word, j))
  {}

  lemma {:induction false} BitOfField(x: nat, f: nat, n: nat, j: nat)
    requires f < Pow2(n) && j < n
    ensures Bit(x * Pow2(n) + f, j) == Bit(f, j)
  {
    assert x * Pow2(n) + f == 2 * (x * Pow2(n - 1) + f / 2) + f % 2;
    if j > 0 { BitOfField(x, f / 2, n - 1, j - 1); }
  }

  lemma MulAtLeast(d: int, p: nat)
    ensures d >= 1 ==> d * p >= p
    ensures d <= -1 ==> d * p <= 0 - p
  {
    if d >= 1 { assert d * p == (d - 1) * p + p; }
    if d <= -1 { assert d * p == (d + 1) * p - p; }
  }

  lemma FieldAbove(x: nat, f: nat, n: nat)
    requires f < Pow2(n)
    ensures (x * Pow2(n) + f) / Pow2(n) == x
  {
    var p := Pow2(n);
    var q := (x * p + f) / p;
    var r := (x * p + f) % p;
    assert x * p + f == q * p + r;
    assert (x - q) * p == r - f;
    MulAtLeast(x - q, p);
  }

  lemma {:induction false} ClearBelow(f: nat, k: nat, n: nat)
    requires f < Pow2(n)
    ensures Clear(f, k) <= f < Pow2(n)
  {
    if k > 0 && f > 0 { ClearBelow(f / 2, k - 1, n - 1); } else if k > 0 { ClearZero(k); }
  }

  lemma ClearZero(k: nat)
    ensures Clear(0, k) == 0
  {}

  lemma {:induction false} SetBelow(f: nat, k: nat, n: nat)
    requires f < Pow2(n) && k < n
    ensures Set(f, k) < Pow2(n)
  {
    if k > 0 { SetBelow(f / 2, k - 1, n - 1); }
  }

  lemma BitOfFlags(word: nat, j: nat)
    requires j < 10
    ensures Bit(PteFlags(word), j) == Bit(word, j)
  {
    BitOfField(word / Pow2(10), word % Pow2(10), 10, j);
  }
  
  lemma SwapOutBit(word: nat, slot: nat, j: nat)
    requires j < 10
    ensures Bit(SwapOutWord(word, slot), j) == (j == SWAPPED || (j != V && j != A && Bit(word, j)))
  {
    var f0 := Clear(PteFlags(word), V);
    var f1 := Clear(f0, A);
    ClearBelow(PteFlags(word), V, 10);
    ClearBelow(f0, A, 10);
    SetBelow(f1, SWAPPED, 10);
    BitOfField(slot, Set(f1, SWAPPED), 10, j);
    BitOfSet(f1, SWAPPED, j);
    BitOfClear(f0, A, j);
    BitOfClear(PteFlags(word), V, j);
    BitOfFlags(word, j);
  }

  lemma SwapInBit(word: nat, pa: nat, j: nat)
    requires j < 10
    ensures Bit(SwapInWord(word, pa), j) == (j == V || (j != SWAPPED && Bit(word, j)))
  {
    var f := Clear(PteFlags(word), SWAPPED);
    ClearBelow(PteFlags(word), SWAPPED, 10);
    SetBelow(f, V, 10);
    BitOfField(pa / Pow2(12), Set(f, V), 10, j);
    BitOfSet(f, V, j);
    BitOfClear(PteFlags(word), SWAPPED, j);
    BitOfFlags(word, j);
  }

  lemma SwapOutSlot(word: nat, slot: nat)
    ensures SwapOutWord(word, slot) / Pow2(10) == slot
  {
    var f0 := Clear(PteFlags(word), V);
    var f1 := Clear(f0, A);
    ClearBelow(PteFlags(word), V, 10);
    ClearBelow(f0, A, 10);
    SetBelow(f1, SWAPPED, 10);
    FieldAbove(slot, Set(f1, SWAPPED), 10);
  }

  /** What swapout writes keeps every flag but V and A, and the slot can be read back
      the way swapin, uvmunmap and uvmcopy do. */
  lemma SwapOutWordDecodes(word: nat, slot: nat)
    ensures Decode(SwapOutWord(word, slot))
            == Decode(word).(ppn := slot, v := false, a := false, swapped := true)
    ensures PTE2PA(SwapOutWord(word, slot)) / PGSIZE == slot
  {
    var n := SwapOutWord(word, slot);
    SwapOutSlot(word, slot);
    SwapOutBit(word, slot, 0); SwapOutBit(word, slot, 1); SwapOutBit(word, slot, 2);
    SwapOutBit(word, slot, 3); SwapOutBit(word, slot, 4); SwapOutBit(word, slot, 5);
    SwapOutBit(word, slot, 6); SwapOutBit(word, slot, 7); SwapOutBit(word, slot, 8);
    SwapOutBit(word, slot, 9);
  }

  /** What swapin writes keeps every flag but V and SWAPPED and points at the new page. */
  lemma SwapInWordDecodes(word: nat, pa: nat)
    requires pa % PGSIZE == 0
    ensures Decode(SwapInWord(word, pa))
            == Decode(word).(ppn := pa / PGSIZE, v := true, swapped := false)
    ensures PTE2PA(SwapInWord(word, pa)) == pa
  {
    forall j | 0 <= j < 10
      ensures Bit(SwapInWord(word, pa), j) == (j == V || (j != SWAPPED && Bit(word, j)))
    {
      SwapInBit(word, pa, j);
    }
    var f := Clear(PteFlags(word), SWAPPED);
    ClearBelow(PteFlags(word), SWAPPED, 10);
    SetBelow(f, V, 10);
    FieldAbove(pa / Pow2(12), Set(f, V), 10);
  }

  /** How the code tests an entry and takes a slot or a page number out of it. */
  lemma DecodeReads(word: nat)
    ensures var p := Decode(word);
      p.v == Bit(word, V) && p.a == Bit(word, A) && p.swapped == Bit(word, SWAPPED) && PTE2PA(word) / PGSIZE == p.ppn
  {
    hide Bit;
  }

  lemma Halves(y: nat, f: nat)
    ensures (2 * y + f) / 2 == y + f / 2 && (2 * y + f) % 2 == f % 2
  {}

  lemma HalfField(x: nat, f: nat, n: nat)
    requires n > 0
    ensures (x * Pow2(n) + f) / 2 == x * Pow2(n - 1) + f / 2 && (x * Pow2(n) + f) % 2 == f % 2
  {
    assert x * Pow2(n) == 2 * (x * Pow2(n - 1));
    Halves(x * Pow2(n - 1), f);
  }

  lemma {:induction false} ClearOfField(x: nat, f: nat, n: nat, k: nat)
    requires f < Pow2(n) && k < n
    ensures Clear(x * Pow2(n) + f, k) == x * Pow2(n) + Clear(f, k)
  {
    HalfField(x, f, n);
    var y := x * Pow2(n - 1);
    assert x * Pow2(n) == 2 * y;
    if k > 0 { ClearOfField(x, f / 2, n - 1, k - 1); } else { assert (y + f / 2) * 2 == x * Pow2(n) + f / 2 * 2; }
  }

  /** Clearing a flag in place, as the clock hand does, changes that flag alone. */
  lemma CoolWordDecodes(word: nat)
    ensures Decode(Clear(word, A)) == Decode(word).(a := false)
  {
    hide Bit, Clear, Pow2;
    forall j | 0 <= j < 10 ensures Bit(Clear(word, A), j) == (j != A && Bit(word, j)) { BitOfClear(word, A, j); }
    ClearAbove(word);
  }

  lemma ClearAbove(word: nat)
    ensures Clear(word, A) / Pow2(10) == word / Pow2(10)
  {
    hide Clear, Pow2;
    assert A < 10 && word == word / Pow2(10) * Pow2(10) + PteFlags(word);
    var x, f := word / Pow2(10), PteFlags(word);
    ClearOfField(x, f, 10, A);
    ClearBelow(f, A, 10);
    FieldAbove(x, Clear(f, A), 10);
  }

  lemma MapWordBit(pa: nat, perm: nat, j: nat)
    requires perm < Pow2(10) && j < 10
    ensures Bit(MapWord(pa, perm), j) == (j == V || Bit(perm, j))
  {
    SetBelow(perm, V, 10);
    BitOfField(pa / Pow2(12), Set(perm, V), 10, j);
    BitOfSet(perm, V, j);
  }

  /** What mappages writes points at the page and has the flags asked for, and V. */
  lemma MapWordDecodes(pa: nat, perm: nat)
    requires pa % PGSIZE == 0 && perm < Pow2(10)
    ensures Decode(MapWord(pa, perm)) == Decode(perm).(ppn := pa / PGSIZE, v := true)
    ensures PTE2PA(MapWord(pa, perm)) == pa
  {
    hide Bit;
    forall j | 0 <= j < 10 ensures Bit(MapWord(pa, perm), j) == (j == V || Bit(perm, j)) { MapWordBit(pa, perm, j); }
    SetBelow(perm, V, 10);
    FieldAbove(pa / Pow2(12), Set(perm, V), 10);
  }

  lemma CopyFlagsBit(word: nat, j: nat)
    requires j < 10 && Bit(word, V) != Bit(word, SWAPPED)
    ensures CopyFlags(word) < Pow2(10)
    ensures Bit(CopyFlags(word), j) == (j == V || (j != SWAPPED && Bit(word, j)))
  {
    var f := PteFlags(word);
    ClearBelow(f, SWAPPED, 10);
    SetBelow(Clear(f, SWAPPED), V, 10);
    BitOfSet(Clear(f, SWAPPED), V, j);
    BitOfClear(f, SWAPPED, j);
    BitOfFlags(word, j);
  }

  /** The child's entry keeps every flag of the parent's but SWAPPED, and is present. */
  lemma CopyWordDecodes(word: nat, pa: nat)
    requires pa % PGSIZE == 0 && Bit(word, V) != Bit(word, SWAPPED)
    ensures CopyFlags(word) < Pow2(10) && !Bit(CopyFlags(word), SWAPPED)
    ensures Decode(MapWord(pa, CopyFlags(word))) == Decode(word).(ppn := pa / PGSIZE, v := true, swapped := false)
  {
    hide Bit, CopyFlags, MapWord;
    forall j | 0 <= j < 10
      ensures CopyFlags(word) < Pow2(10)
      ensures Bit(CopyFlags(word), j) == (j == V || (j != SWAPPED && Bit(word, j)))
    {
      CopyFlagsBit(word, j);
    }
    CopyFlagsBit(word, V);
    MapWordDecodes(pa, CopyFlags(word));
  }

  lemma UserFlagsBit(w: bool, x: bool, j: nat)
    requires j < 10
    ensures UserFlags(w, x) < Pow2(10)
    ensures Bit(UserFlags(w, x), j) == (j == 1 || j == 4 || (j == 2 && w) || (j == 3 && x))
  {
    var xperm := (if w then 4 else 0) + (if x then 8 else 0);
    SetBelow(xperm, R, 10);
    SetBelow(Set(xperm, R), U, 10);
    BitOfSet(Set(xperm, R), U, j);
    BitOfSet(xperm, R, j);
    LowBits(w, x, j);
  }

  lemma LowBits(w: bool, x: bool, j: nat)
    requires j < 10
    ensures Bit((if w then 4 else 0) + (if x then 8 else 0), j) == ((j == 2 && w) || (j == 3 && x))
  {
    assert Set(0, 2) == 4 && Set(0, 3) == 8 && Set(4, 3) == 12;
    ZeroBits(j);
    BitOfSet(0, 2, j);
    BitOfSet(0, 3, j);
    BitOfSet(4, 3, j);
  }

  lemma ZeroBits(j: nat)
    ensures !Bit(0, j)
  {}
}
