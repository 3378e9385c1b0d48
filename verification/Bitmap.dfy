/** The free-block bitmap, bit by bit as the kernel packs it: block b has bit b % 8 of byte
    b % BPB / 8 of bitmap block b / BPB. */
module Bitmap {

  const BYTES: nat := 512
  const BPB: nat := 4096

  type Bits = seq<seq<bv8>>

  /** 1 << k */
  function Mask(k: nat): bv8
    requires k < 8
  {
    if k == 0 then 1 else if k == 1 then 2 else if k == 2 then 4 else if k == 3 then 8
    else if k == 4 then 16 else if k == 5 then 32 else if k == 6 then 64 else 128
  }

  predicate Test(x: bv8, k: nat)
    requires k < 8
  {
    x & Mask(k) != 0
  }

  function Set(x: bv8, k: nat): (r: bv8)
    requires k < 8
    ensures forall j: nat :: j < 8 ==> (Test(r, j) <==> j == k || Test(x, j))
  {
    x | Mask(k)
  }

  function Clear(x: bv8, k: nat): (r: bv8)
    requires k < 8
    ensures forall j: nat :: j < 8 ==> (Test(r, j) <==> j != k && Test(x, j))
  {
    x & !Mask(k)
  }

  /** Room for the bits of blocks 0 .. n. */
  predicate Room(bits: Bits, n: nat) {
    && (forall i :: 0 <= i < |bits| ==> |bits[i]| == BYTES)
    && n <= |bits| * BPB
  }

  function Row(b: nat): nat { b / BPB }

  function Col(b: nat): (c: nat)
    ensures c < BYTES
  {
    b % BPB / 8
  }

  function Pos(b: nat): (k: nat)
    ensures k < 8
  {
    b % BPB % 8
  }

  /** The place of a bit is inside the bitmap, and two blocks never share one. */
  lemma Places(bits: Bits, n: nat)
    requires Room(bits, n)
    ensures forall b: nat :: b < n ==> Row(b) < |bits|
    ensures forall b: nat, c: nat :: Row(b) == Row(c) && Col(b) == Col(c) && Pos(b) == Pos(c) ==> b == c
  {
  }

  predicate BitAt(bits: Bits, b: nat)
    requires Row(b) < |bits| && |bits[Row(b)]| == BYTES
  {
    Test(bits[Row(b)][Col(b)], Pos(b))
  }

  /** Where the code keeps the bit of block b. */
  lemma BitIs(bits: Bits, b: nat)
    requires b / 4096 < |bits| && |bits[b / 4096]| == 512
    ensures BitAt(bits, b) <==> bits[b / 4096][b % 4096 / 8] & ((1 as bv8) << (b % 8)) != 0
  {
    MaskIs(b % 8);
    assert b % 4096 % 8 == b % 8;
  }

  lemma MaskIs(k: nat)
    requires k < 8
    ensures Mask(k) == (1 as bv8) << k
  {
  }

  function UsedOf(bits: Bits, n: nat): (used: seq<bool>)
    requires Room(bits, n)
    ensures |used| == n
  {
    seq(n, b requires 0 <= b < n => BitAt(bits, b))
  }

  /** bits with the byte of block b replaced. */
  function WithByte(bits: Bits, b: nat, x: bv8): (r: Bits)
    requires Row(b) < |bits| && |bits[Row(b)]| == BYTES
    ensures forall n: nat :: Room(bits, n) ==> Room(r, n)
  {
    bits[Row(b) := bits[Row(b)][Col(b) := x]]
  }

  lemma SetBit(bits: Bits, n: nat, b: nat)
    requires Room(bits, n) && b < n
    ensures Row(b) < |bits| && var x := Set(bits[Row(b)][Col(b)], Pos(b));
            UsedOf(WithByte(bits, b, x), n) == UsedOf(bits, n)[b := true]
  {
    hide Test, Set, Clear, Row, Col, Pos;
    Places(bits, n);
    var bits' := WithByte(bits, b, Set(bits[Row(b)][Col(b)], Pos(b)));
    forall c | 0 <= c < n ensures BitAt(bits', c) == (c == b || BitAt(bits, c)) {}
  }

  lemma ClearBit(bits: Bits, n: nat, b: nat)
    requires Room(bits, n) && b < n
    ensures Row(b) < |bits| && var x := Clear(bits[Row(b)][Col(b)], Pos(b));
            UsedOf(WithByte(bits, b, x), n) == UsedOf(bits, n)[b := false]
  {
    hide Test, Set, Clear, Row, Col, Pos;
    Places(bits, n);
    var bits' := WithByte(bits, b, Clear(bits[Row(b)][Col(b)], Pos(b)));
    forall c | 0 <= c < n ensures BitAt(bits', c) == (c != b && BitAt(bits, c)) {}
  }
}
