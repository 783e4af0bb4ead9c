/** Disk blocks as the kernel sees them: BSIZE bytes, which kernel code also reads and
    writes as an array of 32-bit little-endian words by casting the buffer pointer. */
module Blocks {

  const BSIZE: nat := 1024
  const WORDS: nat := 256
  const UINT_LIMIT: nat := 0x1_0000_0000

  type Byte = x: int | 0 <= x < 256
  type Block = b: seq<Byte> | |b| == BSIZE witness seq(BSIZE, _ => 0)

  /** `x & (1 << k)` */
  predicate BitOf(x: nat, k: nat) {
    if k == 0 then x % 2 == 1 else BitOf(x / 2, k - 1)
  }

  /** `((uint*)data)[i]` */
  function Word(b: Block, i: nat): (w: nat)
    requires i < WORDS
    ensures w < UINT_LIMIT
  {
    b[4 * i] as int + 256 * (b[4 * i + 1] as int) + 65536 * (b[4 * i + 2] as int) + 16777216 * (b[4 * i + 3] as int)
  }

  /** `((uint*)data)[i] = w` */
  function PutWord(b: Block, i: nat, w: nat): Block
    requires i < WORDS && w < UINT_LIMIT
  {
    b[4 * i := w % 256][4 * i + 1 := (w / 256) % 256][4 * i + 2 := (w / 65536) % 256][4 * i + 3 := w / 16777216]
  }

  lemma WordOfPutWord(b: Block, i: nat, w: nat, j: nat)
    requires i < WORDS && j < WORDS && w < UINT_LIMIT
    ensures Word(PutWord(b, i, w), j) == if i == j then w else Word(b, j)
  {
    if i == j {
      BytesOfWord(w);
    }
  }

  lemma BytesOfWord(w: nat)
    requires w < UINT_LIMIT
    ensures w == w % 256 + 256 * ((w / 256) % 256) + 65536 * ((w / 65536) % 256) + 16777216 * (w / 16777216)
  {
    var q1 := w / 256;
    var q2 := q1 / 256;
    assert q2 == w / 65536;
    assert q2 / 256 == w / 16777216;
  }
}
