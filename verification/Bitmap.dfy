/** Bitmaps kept as bytes: swap_bitmap in kernel/vm.c and the free map in kernel/fs.c. */
module Bitmap {

  function Mask(k: nat): bv8
    requires k < 8
  {
    1 << k
  }

  predicate On(b: bv8, k: nat)
    requires k < 8
  {
    b & Mask(k) != 0
  }

  function TurnOn(b: bv8, k: nat): bv8
    requires k < 8
  {
    b | Mask(k)
  }

  function TurnOff(b: bv8, k: nat): bv8
    requires k < 8
  {
    b & !Mask(k)
  }

  /** Bit `i` of the map. */
  predicate Bit(m: seq<bv8>, i: nat)
    requires i / 8 < |m|
  {
    On(m[i / 8], i % 8)
  }

  function SetBit(m: seq<bv8>, i: nat): (n: seq<bv8>)
    requires i / 8 < |m|
    ensures |n| == |m|
  {
    m[i / 8 := TurnOn(m[i / 8], i % 8)]
  }

  function ClearBit(m: seq<bv8>, i: nat): (n: seq<bv8>)
    requires i / 8 < |m|
    ensures |n| == |m|
  {
    m[i / 8 := TurnOff(m[i / 8], i % 8)]
  }

  lemma MaskBits(k: nat, j: nat)
    requires k < 8 && j < 8
    ensures Mask(k) != 0 && (k != j ==> Mask(k) & Mask(j) == 0)
  {
    MaskIs(k);
    MaskIs(j);
  }

  lemma MaskIs(k: nat)
    requires k < 8
    ensures Mask(k) == [1, 2, 4, 8, 16, 32, 64, 128][k]
  {
    if k == 0 {} else if k == 1 {} else if k == 2 {} else if k == 3 {} else if k == 4 {} else if k == 5 {}
  }

  lemma MaskOps(b: bv8, m: bv8, n: bv8)
    ensures (b | m) & m == m && (b & !m) & m == 0
    ensures m & n == 0 ==> (b | m) & n == b & n && (b & !m) & n == b & n
  {}

  lemma ByteOps(b: bv8, k: nat, j: nat)
    requires k < 8 && j < 8
    ensures On(TurnOn(b, k), j) <==> j == k || On(b, j)
    ensures On(TurnOff(b, k), j) <==> j != k && On(b, j)
  {
    hide Mask;
    MaskBits(k, j);
    MaskOps(b, Mask(k), Mask(j));
  }

  /** Setting or clearing one bit changes that bit and no other. */
  lemma BitOps(m: seq<bv8>, i: nat, j: nat)
    requires i / 8 < |m| && j / 8 < |m|
    ensures Bit(SetBit(m, i), j) <==> j == i || Bit(m, j)
    ensures Bit(ClearBit(m, i), j) <==> j != i && Bit(m, j)
  {
    hide Mask, On, TurnOn, TurnOff;
    SameBit(i, j);
    if i / 8 == j / 8 { ByteOps(m[i / 8], i % 8, j % 8); }
  }

  lemma SameBit(i: nat, j: nat)
    ensures i == j <==> i / 8 == j / 8 && i % 8 == j % 8
    ensures i % 8 < 8 && j % 8 < 8
  {}

  /** `used` is the set of bits of `m` below `n`. */
  ghost predicate Shows(m: seq<bv8>, n: nat, used: set<nat>) {
    && n <= 8 * |m|
    && (forall i {:trigger i in used} :: 0 <= i < n ==> (i in used <==> Bit(m, i)))
    && (forall i {:trigger i in used} :: i in used ==> i < n)
  }

  lemma ShowsSet(m: seq<bv8>, n: nat, used: set<nat>, i: nat)
    requires Shows(m, n, used) && i < n
    ensures Shows(SetBit(m, i), n, used + {i})
  {
    hide On, TurnOn;
    forall j | 0 <= j < n ensures j in used + {i} <==> Bit(SetBit(m, i), j) {
      BitOps(m, i, j);
      assert j in used <==> Bit(m, j);
    }
  }

  lemma ShowsClear(m: seq<bv8>, n: nat, used: set<nat>, i: nat)
    requires Shows(m, n, used) && i < n
    ensures Shows(ClearBit(m, i), n, used - {i})
  {
    hide On, TurnOff;
    forall j | 0 <= j < n ensures j in used - {i} <==> Bit(ClearBit(m, i), j) {
      BitOps(m, i, j);
      assert j in used <==> Bit(m, j);
    }
  }
}
