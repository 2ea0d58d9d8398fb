/** Disk blocks as byte strings, and the little-endian 32-bit words that the
    kernel reads and writes inside them (log header, indirect block). */
module Blocks {
  const BSIZE: nat := 512
  const NWORDS: nat := 128

  type byte = x: int | 0 <= x < 256
  type uint32 = x: int | 0 <= x < 0x1_0000_0000
  type Bytes = b: seq<byte> | |b| == 512 witness seq(512, _ => 0)
  datatype Block = Block(data: Bytes)

  function ZeroBlock(): (b: Block)
    ensures forall k :: 0 <= k < BSIZE ==> b.data[k] == 0
  {
    Block(seq(BSIZE, _ => 0))
  }

  function Word(b: Block, i: nat): uint32
    requires i < NWORDS
  {
    var b0: int, b1: int, b2: int, b3: int :=
      b.data[4 * i], b.data[4 * i + 1], b.data[4 * i + 2], b.data[4 * i + 3];
    b0 + 0x100 * b1 + 0x1_0000 * b2 + 0x100_0000 * b3
  }

  function PutWord(b: Block, i: nat, w: uint32): Block
    requires i < NWORDS
  {
    Block(b.data[4 * i := w % 0x100][4 * i + 1 := (w / 0x100) % 0x100]
                [4 * i + 2 := (w / 0x1_0000) % 0x100][4 * i + 3 := w / 0x100_0000])
  }

  lemma WordBytes(w: uint32)
    ensures w == w % 0x100 + 0x100 * ((w / 0x100) % 0x100)
                 + 0x1_0000 * ((w / 0x1_0000) % 0x100) + 0x100_0000 * (w / 0x100_0000)
  {
    var a, b, c := w / 0x100, w / 0x1_0000, w / 0x100_0000;
    assert b == a / 0x100 && c == b / 0x100;
  }

  /** Storing a word makes it readable back and leaves every other word alone. */
  lemma WordPutWord(b: Block, i: nat, w: uint32, j: nat)
    requires i < NWORDS && j < NWORDS
    ensures Word(PutWord(b, i, w), j) == if i == j then w else Word(b, j)
  {
    WordBytes(w);
  }

  lemma WordZero(i: nat)
    requires i < NWORDS
    ensures Word(ZeroBlock(), i) == 0
  {
  }

  /** Stores consecutive words, the first as word number at. */
  function PutWords(b: Block, at: nat, ws: seq<uint32>): Block
    requires at + |ws| <= NWORDS
  {
    if ws == [] then b else PutWord(PutWords(b, at, ws[..|ws| - 1]), at + |ws| - 1, ws[|ws| - 1])
  }

  lemma {:induction false} WordPutWords(b: Block, at: nat, ws: seq<uint32>, j: nat)
    requires at + |ws| <= NWORDS && j < NWORDS
    ensures Word(PutWords(b, at, ws), j) == if at <= j < at + |ws| then ws[j - at] else Word(b, j)
    decreases |ws|
  {
    if ws == [] {
    } else {
      WordPutWords(b, at, ws[..|ws| - 1], j);
      WordPutWord(PutWords(b, at, ws[..|ws| - 1]), at + |ws| - 1, ws[|ws| - 1], j);
    }
  }
}
