/** Disk blocks as the kernel sees them: BSIZE bytes, read as 32-bit little-endian words
    wherever the source casts b->data to an int or uint pointer. */
module Blocks {

  type byte = x: int | 0 <= x < 256

  const BSIZE: nat := 512
  const WORDS: nat := 128
  const TWO32: nat := 0x1_0000_0000

  type Block = b: seq<byte> | |b| == BSIZE witness seq(BSIZE, _ => 0)

  predicate Zeroed(b: Block) {
    forall i :: 0 <= i < BSIZE ==> b[i] == 0
  }

  function ZeroBlock(): (b: Block)
    ensures Zeroed(b)
  {
    seq(BSIZE, _ => 0)
  }

  function Word(b: Block, j: nat): (w: nat)
    requires j < WORDS
    ensures w < TWO32
  {
    var b0: int, b1: int, b2: int, b3: int := b[4 * j], b[4 * j + 1], b[4 * j + 2], b[4 * j + 3];
    b0 + 256 * b1 + 65536 * b2 + 16777216 * b3
  }

  /** The four bytes of a word put together again. */
  lemma BytesOfWord(w: nat)
    requires w < TWO32
    ensures w % 256 + 256 * (w / 256 % 256) + 65536 * (w / 65536 % 256) + 16777216 * (w / 16777216) == w
    ensures w / 16777216 < 256
  {
    var a, b, c := w / 256, w / 65536, w / 16777216;
    Quotients(w);
    assert w == 256 * a + w % 256;
    assert a == 256 * b + a % 256;
    assert b == 256 * c + b % 256;
  }

  lemma Quotients(w: nat)
    ensures w / 256 / 256 == w / 65536 && w / 65536 / 256 == w / 16777216
  {
  }

  /** b with word j replaced, as a store through a uint pointer does. */
  function WithWord(b: Block, j: nat, w: nat): (r: Block)
    requires j < WORDS && w < TWO32
    ensures Word(r, j) == w
    ensures forall k: nat :: k < WORDS && k != j ==> Word(r, k) == Word(b, k)
  {
    BytesOfWord(w);
    b[4 * j := w % 256][4 * j + 1 := w / 256 % 256][4 * j + 2 := w / 65536 % 256][4 * j + 3 := w / 16777216]
  }

  lemma ZeroWords()
    ensures forall j: nat :: j < WORDS ==> Word(ZeroBlock(), j) == 0
  {
  }
}
