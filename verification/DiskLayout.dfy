/** How the file system lies on the disk: bits of the bitmap blocks, records of the inode blocks
    and the data blocks, down to their bytes. */
module DiskLayout {
  import opened Common
  import opened Blocks
  import opened Inodes

  // ----- the bitmap -----

  function Pow2(m: nat): (p: nat)
    requires m < 8
    ensures 0 < p <= 128
  {
    if m == 0 then 1 else if m == 1 then 2 else if m == 2 then 4 else if m == 3 then 8
    else if m == 4 then 16 else if m == 5 then 32 else if m == 6 then 64 else 128
  }

  predicate BitIn(x: byte, m: nat)
    requires m < 8
  {
    x / Pow2(m) % 2 == 1
  }

  /** The byte with bit m set or cleared. */
  function WithBit(x: byte, m: nat, v: bool): byte
    requires m < 8
  {
    if BitIn(x, m) == v then x
    else if v then BitClear(x, m); x + Pow2(m)
    else BitSet(x, m); x - Pow2(m)
  }

  lemma BitClear(x: byte, m: nat)
    requires m < 8 && !BitIn(x, m)
    ensures x + Pow2(m) < 256
  {
  }

  lemma BitSet(x: byte, m: nat)
    requires m < 8 && BitIn(x, m)
    ensures x >= Pow2(m)
  {
  }

  function BitValue(x: byte, m: nat): nat
    requires m < 8
  {
    if BitIn(x, m) then 1 else 0
  }

  /** A byte is the sum of its bits. */
  lemma SumOfBits(x: byte)
    ensures x == BitValue(x, 0) + 2 * BitValue(x, 1) + 4 * BitValue(x, 2) + 8 * BitValue(x, 3)
                 + 16 * BitValue(x, 4) + 32 * BitValue(x, 5) + 64 * BitValue(x, 6) + 128 * BitValue(x, 7)
  {
    hide BitValue;
    Halves(x);
    var x1, x2, x3, x4, x5, x6, x7 := x / 2, x / 4, x / 8, x / 16, x / 32, x / 64, x / 128;
    BitValues(x);
    assert x == 2 * x1 + x % 2 && x1 == 2 * x2 + x1 % 2 && x2 == 2 * x3 + x2 % 2 && x3 == 2 * x4 + x3 % 2;
    assert x4 == 2 * x5 + x4 % 2 && x5 == 2 * x6 + x5 % 2 && x6 == 2 * x7 + x6 % 2 && x7 == x7 % 2;
  }

  lemma Halves(x: byte)
    ensures x / 4 == x / 2 / 2 && x / 8 == x / 4 / 2 && x / 16 == x / 8 / 2 && x / 32 == x / 16 / 2
    ensures x / 64 == x / 32 / 2 && x / 128 == x / 64 / 2 && x / 128 < 2
  {
  }

  lemma BitValues(x: byte)
    ensures BitValue(x, 0) == x % 2 && BitValue(x, 1) == x / 2 % 2 && BitValue(x, 2) == x / 4 % 2
    ensures BitValue(x, 3) == x / 8 % 2
    ensures BitValue(x, 4) == x / 16 % 2 && BitValue(x, 5) == x / 32 % 2 && BitValue(x, 6) == x / 64 % 2
    ensures BitValue(x, 7) == x / 128 % 2
  {
  }

  /** Bits that sum up to a byte are its bits. */
  lemma BitsOfSum(x: byte, b0: nat, b1: nat, b2: nat, b3: nat, b4: nat, b5: nat, b6: nat, b7: nat)
    requires b0 < 2 && b1 < 2 && b2 < 2 && b3 < 2 && b4 < 2 && b5 < 2 && b6 < 2 && b7 < 2
    requires x == b0 + 2 * b1 + 4 * b2 + 8 * b3 + 16 * b4 + 32 * b5 + 64 * b6 + 128 * b7
    ensures BitValue(x, 0) == b0 && BitValue(x, 1) == b1 && BitValue(x, 2) == b2 && BitValue(x, 3) == b3
    ensures BitValue(x, 4) == b4 && BitValue(x, 5) == b5 && BitValue(x, 6) == b6 && BitValue(x, 7) == b7
  {
    assert x / 2 == b1 + 2 * b2 + 4 * b3 + 8 * b4 + 16 * b5 + 32 * b6 + 64 * b7;
    assert x / 4 == b2 + 2 * b3 + 4 * b4 + 8 * b5 + 16 * b6 + 32 * b7;
    assert x / 8 == b3 + 2 * b4 + 4 * b5 + 8 * b6 + 16 * b7;
    assert x / 16 == b4 + 2 * b5 + 4 * b6 + 8 * b7;
    assert x / 32 == b5 + 2 * b6 + 4 * b7;
    assert x / 64 == b6 + 2 * b7;
    assert x / 128 == b7;
  }

  lemma WithBitAt(x: byte, m: nat, v: bool, j: nat)
    requires m < 8 && j < 8
    ensures BitIn(WithBit(x, m, v), j) == if j == m then v else BitIn(x, j)
  {
    hide BitIn;
    SumOfBits(x);
    var w := if v then 1 else 0;
    BitsOfSum(WithBit(x, m, v),
              if m == 0 then w else BitValue(x, 0), if m == 1 then w else BitValue(x, 1),
              if m == 2 then w else BitValue(x, 2), if m == 3 then w else BitValue(x, 3),
              if m == 4 then w else BitValue(x, 4), if m == 5 then w else BitValue(x, 5),
              if m == 6 then w else BitValue(x, 6), if m == 7 then w else BitValue(x, 7));
  }

  predicate BitOf(b: Block, k: nat)
    requires k < BPB
  {
    BitIn(b.data[k / 8], k % 8)
  }

  /** balloc()'s and bfree()'s change of one bit of a bitmap block. */
  function SetBit(b: Block, k: nat, v: bool): Block
    requires k < BPB
  {
    Block(b.data[k / 8 := WithBit(b.data[k / 8], k % 8, v)])
  }

  lemma SetBitAt(b: Block, k: nat, v: bool, j: nat)
    requires k < BPB && j < BPB
    ensures BitOf(SetBit(b, k, v), j) == if j == k then v else BitOf(b, j)
  {
    hide BitIn, WithBit;
    if j / 8 == k / 8 {
      WithBitAt(b.data[k / 8], k % 8, v, j % 8);
    }
  }

  // ----- inode blocks -----

  function AddrsOf(b: Block, j: nat): (r: seq<uint32>)
    requires j < IPB
  {
    seq<uint32>(NDIRECT + 1, k requires 0 <= k < NDIRECT + 1 => Word(b, 16 * j + 3 + k))
  }

  /** Record j of an inode block: size and addresses, behind type, device and link count. */
  function DinodeOf(b: Block, j: nat): Inode
    requires j < IPB
  {
    Inode(Word(b, 16 * j + 2), AddrsOf(b, j))
  }

  /** iupdate() on the block's bytes. */
  function PutDinode(b: Block, j: nat, n: Inode): Block
    requires j < IPB && n.size < TWO32 && |n.addrs| == NDIRECT + 1
  {
    PutWords(PutWord(b, 16 * j + 2, n.size), 16 * j + 3, n.addrs)
  }

  lemma PutDinodeWord(b: Block, j: nat, n: Inode, w: nat)
    requires j < IPB && w < NWORDS && n.size < TWO32 && |n.addrs| == NDIRECT + 1
    ensures Word(PutDinode(b, j, n), w) ==
            if w == 16 * j + 2 then n.size else if 16 * j + 3 <= w < 16 * j + 16 then n.addrs[w - 16 * j - 3]
                else Word(b, w)
  {
    hide Word, PutWord, PutWords;
    WordPutWords(PutWord(b, 16 * j + 2, n.size), 16 * j + 3, n.addrs, w);
    WordPutWord(b, 16 * j + 2, n.size, w);
  }

  lemma PutDinodeAt(b: Block, j: nat, n: Inode, i: nat)
    requires j < IPB && i < IPB && n.size < TWO32 && |n.addrs| == NDIRECT + 1
    ensures DinodeOf(PutDinode(b, j, n), i) == if i == j then n else DinodeOf(b, i)
  {
    hide Word, PutDinode;
    var b' := PutDinode(b, j, n);
    PutDinodeWord(b, j, n, 16 * i + 2);
    forall k | 0 <= k <= NDIRECT
      ensures AddrsOf(b', i)[k] == if i == j then n.addrs[k] else AddrsOf(b, i)[k]
    {
      PutDinodeWord(b, j, n, 16 * i + 3 + k);
    }
    assert AddrsOf(b', i) == if i == j then n.addrs else AddrsOf(b, i);
  }

  // ----- the whole disk -----

  /** Boot block, superblock and log, then inode blocks, bitmap blocks and data blocks. */
  ghost predicate Layout(sb: Superblock, inodes: nat) {
    && 0 < sb.inodestart && sb.inodestart + (inodes + IPB - 1) / IPB <= sb.bmapstart
    && sb.bmapstart + (sb.size + BPB - 1) / BPB <= sb.datastart <= sb.size <= TWO32
  }

  /** The disk as one string of bytes. */
  function DiskByte(d: seq<Block>, n: nat): int
    requires n / BSIZE < |d|
  {
    d[n / BSIZE].data[n % BSIZE]
  }

  /** The little-endian number in bytes n to n + 3. */
  function DiskWord(d: seq<Block>, n: nat): int
    requires (n + 3) / BSIZE < |d|
  {
    DiskByte(d, n) + 0x100 * DiskByte(d, n + 1) + 0x1_0000 * DiskByte(d, n + 2) + 0x100_0000 * DiskByte(d, n + 3)
  }

  lemma WordPlace(d: seq<Block>, a: nat, w: nat, n: nat)
    requires a < |d| && w < NWORDS && n == BSIZE * a + 4 * w
    ensures (n + 3) / BSIZE < |d| && DiskWord(d, n) == Word(d[a], w)
  {
    BytePlace(a, 4 * w);
    BytePlace(a, 4 * w + 1);
    BytePlace(a, 4 * w + 2);
    BytePlace(a, 4 * w + 3);
  }

  lemma BytePlace(a: nat, k: nat)
    requires k < BSIZE
    ensures (BSIZE * a + k) / BSIZE == a && (BSIZE * a + k) % BSIZE == k
  {
  }

  /** Where the source puts things: inode i is the 64-byte record number i from block inodestart on,
      with the size in its bytes 8 to 11 and the addresses behind it. */
  lemma InodePlace(sb: Superblock, d: seq<Block>, i: nat, k: nat)
    requires IBlock(sb, i) < |d| && k <= NDIRECT
    ensures var at := BSIZE * sb.inodestart + 64 * i;
            && (at + 12 + 4 * k + 3) / BSIZE < |d| && (at + 8 + 3) / BSIZE < |d|
            && DinodeOf(d[IBlock(sb, i)], i % IPB).size == DiskWord(d, at + 8)
            && DinodeOf(d[IBlock(sb, i)], i % IPB).addrs[k] == DiskWord(d, at + 12 + 4 * k)
  {
    hide DiskWord, Word;
    var a, j := IBlock(sb, i), i % IPB;
    assert BSIZE * sb.inodestart + 64 * i == BSIZE * a + 64 * j;
    WordPlace(d, a, 16 * j + 2, BSIZE * a + 4 * (16 * j + 2));
    WordPlace(d, a, 16 * j + 3 + k, BSIZE * a + 4 * (16 * j + 3 + k));
  }

  /** The bit of block b is bit b % 8 of byte number b / 8 from block bmapstart on. */
  lemma BitPlace(sb: Superblock, d: seq<Block>, b: nat)
    requires BBlock(sb, b) < |d|
    ensures var at := BSIZE * sb.bmapstart + b / 8;
            && at / BSIZE < |d| && 0 <= DiskByte(d, at) < 256
            && BitOf(d[BBlock(sb, b)], b % BPB) == BitIn(DiskByte(d, at), b % 8)
  {
    hide BitIn;
    assert BSIZE * sb.bmapstart + b / 8 == BSIZE * BBlock(sb, b) + b % BPB / 8;
    BytePlace(BBlock(sb, b), b % BPB / 8);
    assert b % BPB % 8 == b % 8;
  }

  /** Disk d holds this bitmap, these inodes and these data blocks. */
  ghost predicate Represents(sb: Superblock, d: seq<Block>, used: seq<bool>, block: seq<Block>, dinode: seq<Inode>) {
    && Layout(sb, |dinode|) && |used| == |block| == sb.size <= |d|
    && (forall b :: 0 <= b < sb.size ==> BitOf(d[BBlock(sb, b)], b % BPB) == used[b])
    && (forall i :: 0 <= i < |dinode| ==> DinodeOf(d[IBlock(sb, i)], i % IPB) == dinode[i])
    && (forall a :: sb.datastart <= a < sb.size ==> d[a] == block[a])
  }

  lemma Places(sb: Superblock, inodes: nat)
    requires Layout(sb, inodes)
    ensures forall b :: 0 <= b < sb.size ==> sb.bmapstart <= BBlock(sb, b) < sb.datastart
    ensures forall i :: 0 <= i < inodes ==> sb.inodestart <= IBlock(sb, i) < sb.bmapstart
  {
  }

  lemma BitChanged(sb: Superblock, d: seq<Block>, used: seq<bool>, block: seq<Block>, dinode: seq<Inode>, b: nat,
                   v: bool)
    requires Represents(sb, d, used, block, dinode) && b < sb.size
    ensures BBlock(sb, b) < |d|
    ensures var a := BBlock(sb, b); Represents(sb, d[a := SetBit(d[a], b % BPB, v)], used[b := v], block, dinode)
  {
    hide BitOf, SetBit, DinodeOf;
    Places(sb, |dinode|);
    var a := BBlock(sb, b);
    var d' := d[a := SetBit(d[a], b % BPB, v)];
    forall c | 0 <= c < sb.size
      ensures BitOf(d'[BBlock(sb, c)], c % BPB) == if c == b then v else used[c]
    {
      SetBitAt(d[a], b % BPB, v, c % BPB);
      assert BitOf(d[BBlock(sb, c)], c % BPB) == used[c];
    }
  }

  lemma InodeChanged(sb: Superblock, d: seq<Block>, used: seq<bool>, block: seq<Block>, dinode: seq<Inode>, i: nat,
                     n: Inode)
    requires Represents(sb, d, used, block, dinode) && i < |dinode| && n.size < TWO32 && |n.addrs| == NDIRECT + 1
    ensures IBlock(sb, i) < |d|
    ensures var a := IBlock(sb, i); Represents(sb, d[a := PutDinode(d[a], i % IPB, n)], used, block, dinode[i := n])
  {
    hide BitOf, DinodeOf, PutDinode;
    Places(sb, |dinode|);
    var a := IBlock(sb, i);
    var d' := d[a := PutDinode(d[a], i % IPB, n)];
    forall j | 0 <= j < |dinode|
      ensures DinodeOf(d'[IBlock(sb, j)], j % IPB) == if j == i then n else dinode[j]
    {
      PutDinodeAt(d[a], i % IPB, n, j % IPB);
      assert DinodeOf(d[IBlock(sb, j)], j % IPB) == dinode[j];
    }
  }

  lemma DataChanged(sb: Superblock, d: seq<Block>, used: seq<bool>, block: seq<Block>, dinode: seq<Inode>, a: nat,
                    x: Block)
    requires Represents(sb, d, used, block, dinode) && sb.datastart <= a < sb.size
    ensures Represents(sb, d[a := x], used, block[a := x], dinode)
  {
    hide BitOf, DinodeOf;
    Places(sb, |dinode|);
  }
}
