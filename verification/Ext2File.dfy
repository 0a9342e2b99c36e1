/** What a file is on an ext2 volume, independently of the loader's walk: logical block `k` through
    the inode's pointers, one or two levels of tables. For a file without holes the walk of
    `Ext2Loader` copies exactly these bytes. */
module Ext2File {
  import opened Common
  import opened Ext2Loader

  function PerTable(v: Volume): nat { v.blockSize / 4 }

  /** Entry `i` of the table in `block`; 0, a hole, when there is no such table. */
  function Entry(v: Volume, block: nat, i: nat): nat
    requires ValidVolume(v) && i < PerTable(v)
  {
    if block == 0 || !Readable(v, block) then 0 else Table(v, block)[i]
  }

  /** The disk block of logical block `k`; 0 for a hole or a block past double indirection. */
  function FileBlock(v: Volume, ino: Inode, k: nat): nat
    requires ValidVolume(v) && ValidInode(ino)
  {
    var p := PerTable(v);
    if k < 12 then ino.blocks[k]
    else if k < 12 + p then Entry(v, ino.blocks[12], k - 12)
    else
      var i, j := (k - 12 - p) / p, (k - 12 - p) % p;
      if i < p then Entry(v, Entry(v, ino.blocks[13], i), j) else 0
  }

  predicate HoleFree(v: Volume, ino: Inode)
    requires ValidVolume(v) && ValidInode(ino)
  {
    forall k | 0 <= k < BlockCount(v, ino.size) :: FileBlock(v, ino, k) != 0
  }

  /** The byte of the file at `off`. */
  function FileByte(v: Volume, ino: Inode, off: nat): byte
    requires ValidVolume(v) && ValidInode(ino)
    requires Readable(v, FileBlock(v, ino, off / v.blockSize))
  {
    BlockBytes(v, FileBlock(v, ino, off / v.blockSize))[off % v.blockSize]
  }

  /** Memory at `dest + off` holds the file's byte at `off`. */
  predicate Delivered(v: Volume, ino: Inode, mem: seq<byte>, dest: nat, off: nat)
    requires ValidVolume(v) && ValidInode(ino)
  {
    && dest + off < |mem| && Readable(v, FileBlock(v, ino, off / v.blockSize))
    && mem[dest + off] == FileByte(v, ino, off)
  }

  /** The visited list agrees with the file's own block map on its first `n` blocks. */
  predicate Agrees(v: Volume, ino: Inode, visited: seq<nat>, n: nat)
    requires ValidVolume(v) && ValidInode(ino)
  {
    n <= |visited| && forall k | 0 <= k < n :: visited[k] == FileBlock(v, ino, k)
  }

  /** A table without a hole among its first `m` entries is read at least that far. */
  lemma {:induction false} ReadsFar(t: seq<nat>, need: nat, grouped: bool, m: nat)
    requires m <= |t| && m <= need && forall k | 0 <= k < m :: t[k] != 0
    ensures m <= |Reads(t, need, grouped)|
    decreases |t|
  {
    hide Reads, Group;
    if m > 0 {
      var n := Group(t, grouped);
      FirstGroup(t, need, grouped);
      if n < m {
        assert forall k | 0 <= k < m - n :: t[n..][k] == t[n + k];
        ReadsFar(t[n..], need - n, grouped, m - n);
      }
    }
  }

  lemma {:induction false} DirectAgrees(v: Volume, ino: Inode)
    requires ValidVolume(v) && ValidInode(ino) && HoleFree(v, ino)
    ensures var n := BlockCount(v, ino.size);
            Agrees(v, ino, Direct(v, ino), Min(n, 12)) && (n >= 12 ==> |Direct(v, ino)| == 12)
  {
    var n := BlockCount(v, ino.size);
    var t := ino.blocks[..12];
    forall k | 0 <= k < Min(n, 12)
      ensures t[k] != 0
    {
      assert FileBlock(v, ino, k) == t[k];
    }
    ReadsFar(t, n, true, Min(n, 12));
  }

  lemma {:induction false} SingleAgrees(v: Volume, ino: Inode)
    requires ValidVolume(v) && ValidInode(ino) && HoleFree(v, ino) && BlockCount(v, ino.size) > 12
    ensures var n, p := BlockCount(v, ino.size), PerTable(v);
            Agrees(v, ino, Low(v, ino), Min(n, 12 + p)) && (n >= 12 + p ==> |Low(v, ino)| == 12 + p)
  {
    hide Direct, Reads, Table, BlockCount, BlockLimit;
    var n, p := BlockCount(v, ino.size), PerTable(v);
    DirectAgrees(v, ino);
    assert FileBlock(v, ino, 12) == Entry(v, ino.blocks[12], 0);
    assert UsesSingle(v, ino);
    var t := Table(v, ino.blocks[12]);
    var m := Min(n - 12, p);
    forall k | 0 <= k < m
      ensures t[k] != 0
    {
      assert FileBlock(v, ino, 12 + k) == t[k];
    }
    ReadsFar(t, n - 12, true, m);
    forall k | 0 <= k < Min(n, 12 + p)
      ensures Low(v, ino)[k] == FileBlock(v, ino, k)
    {
      if k >= 12 {
        assert Single(v, ino)[k - 12] == t[k - 12];
      }
    }
  }

  /** Second-level table `q` of the double-indirect tree has no hole among its first `m` entries. */
  predicate RowFilled(v: Volume, l1: seq<nat>, q: nat, m: nat)
    requires ValidVolume(v) && q < |l1| && m <= PerTable(v)
  {
    l1[q] != 0 && Readable(v, l1[q]) && forall j | 0 <= j < m :: Table(v, l1[q])[j] != 0
  }

  /** The walk through a table of tables meets entry `j` of table `i` in its place. */
  lemma {:induction false} BehindAt(v: Volume, l1: seq<nat>, need: nat, i: nat, j: nat)
    requires ValidVolume(v) && i < |l1| && j < PerTable(v) && Times(i, PerTable(v)) + j < need
    requires (forall q | 0 <= q < i :: RowFilled(v, l1, q, PerTable(v))) && RowFilled(v, l1, i, j + 1)
    ensures var b := Behind(v, l1, need);
            Times(i, PerTable(v)) + j < |b| && b[Times(i, PerTable(v)) + j] == Table(v, l1[i])[j]
    decreases i
  {
    hide Reads, Table, BlockLimit, RowFilled, Behind;
    var p := PerTable(v);
    RowRead(v, l1, need, if i == 0 then j + 1 else p);
    var leaf := Reads(Table(v, l1[0]), need, false);
    if i > 0 {
      RowsShift(v, l1, i, j);
      BehindAt(v, l1[1..], need - p, i - 1, j);
      assert |leaf| == p && Times(i, p) == Times(i - 1, p) + p;
      assert l1[1..][i - 1] == l1[i];
    }
  }

  /** A filled first row comes first. */
  lemma {:induction false} RowRead(v: Volume, l1: seq<nat>, need: nat, m: nat)
    requires ValidVolume(v) && l1 != [] && 0 < m <= PerTable(v) && m <= need && RowFilled(v, l1, 0, m)
    ensures l1[0] != 0 && Readable(v, l1[0])
    ensures var leaf := Reads(Table(v, l1[0]), need, false);
            && m <= |leaf| <= PerTable(v) && leaf <= Table(v, l1[0])
            && Behind(v, l1, need) == leaf + Behind(v, l1[1..], Minus(need, |leaf|))
  {
    hide Reads, Table, BlockLimit;
    ReadsFar(Table(v, l1[0]), need, false, m);
  }

  lemma {:induction false} RowsShift(v: Volume, l1: seq<nat>, i: nat, j: nat)
    requires ValidVolume(v) && 0 < i < |l1| && j < PerTable(v)
    requires (forall q | 0 <= q < i :: RowFilled(v, l1, q, PerTable(v))) && RowFilled(v, l1, i, j + 1)
    ensures forall q | 0 <= q < i - 1 :: RowFilled(v, l1[1..], q, PerTable(v))
    ensures RowFilled(v, l1[1..], i - 1, j + 1)
  {
    hide Table, BlockLimit;
    forall q | 0 <= q < i - 1
      ensures RowFilled(v, l1[1..], q, PerTable(v))
    {
      assert RowFilled(v, l1, q + 1, PerTable(v));
    }
  }

  /** Entry `j` of second-level table `q`, by the file's own numbering. */
  lemma {:induction false} EntryFilled(v: Volume, ino: Inode, q: nat, j: nat)
    requires ValidVolume(v) && ValidInode(ino) && HoleFree(v, ino)
    requires ino.blocks[13] != 0 && Readable(v, ino.blocks[13]) && q < PerTable(v) && j < PerTable(v)
    requires 12 + PerTable(v) + (q * PerTable(v) + j) < BlockCount(v, ino.size)
    ensures var t := Table(v, ino.blocks[13])[q];
            t != 0 && Readable(v, t) && Table(v, t)[j] != 0
  {
    var p := PerTable(v);
    Quotient(q * p + j, q, p);
    assert FileBlock(v, ino, 12 + p + (q * p + j)) == Entry(v, Entry(v, ino.blocks[13], q), j);
  }

  lemma {:induction false} Quotient(x: nat, q: nat, p: nat)
    requires q * p <= x < q * p + p
    ensures x / p == q && x % p == x - q * p
  {
    var d := x / p;
    assert x == d * p + x % p;
    if d < q {
      Scale(d + 1, q, p);
    } else if d > q {
      Scale(q + 1, d, p);
    }
  }

  lemma {:induction false} RowFilledUpTo(v: Volume, ino: Inode, q: nat, m: nat)
    requires ValidVolume(v) && ValidInode(ino) && HoleFree(v, ino)
    requires ino.blocks[13] != 0 && Readable(v, ino.blocks[13]) && q < PerTable(v) && 0 < m <= PerTable(v)
    requires 12 + PerTable(v) + (q * PerTable(v) + m) <= BlockCount(v, ino.size)
    ensures RowFilled(v, Table(v, ino.blocks[13]), q, m)
  {
    EntryFilled(v, ino, q, 0);
    forall j | 0 <= j < m
      ensures Table(v, Table(v, ino.blocks[13])[q])[j] != 0
    {
      EntryFilled(v, ino, q, j);
    }
  }

  lemma {:induction false} RowsFilled(v: Volume, ino: Inode, i: nat, j: nat)
    requires ValidVolume(v) && ValidInode(ino) && HoleFree(v, ino)
    requires ino.blocks[13] != 0 && Readable(v, ino.blocks[13]) && i < PerTable(v) && j < PerTable(v)
    requires 12 + PerTable(v) + (i * PerTable(v) + j) < BlockCount(v, ino.size)
    ensures var l1 := Table(v, ino.blocks[13]);
            (forall q | 0 <= q < i :: RowFilled(v, l1, q, PerTable(v))) && RowFilled(v, l1, i, j + 1)
  {
    var p := PerTable(v);
    forall q | 0 <= q < i
      ensures RowFilled(v, Table(v, ino.blocks[13]), q, p)
    {
      Scale(q + 1, i, p);
      RowFilledUpTo(v, ino, q, p);
    }
    RowFilledUpTo(v, ino, i, j + 1);
  }

  /** The place of a logical block in the double-indirect tree. */
  lemma {:induction false} InTree(v: Volume, ino: Inode, k: nat) returns (i: nat, j: nat)
    requires ValidVolume(v) && ValidInode(ino) && 12 + PerTable(v) <= k
    ensures k == 12 + PerTable(v) + (i * PerTable(v) + j) && j < PerTable(v)
    ensures FileBlock(v, ino, k) ==
            if i < PerTable(v) then Entry(v, Entry(v, ino.blocks[13], i), j) else 0
  {
    i, j := (k - 12 - PerTable(v)) / PerTable(v), (k - 12 - PerTable(v)) % PerTable(v);
  }

  lemma {:induction false} DoubleAgreesAt(v: Volume, ino: Inode, k: nat)
    requires ValidVolume(v) && ValidInode(ino) && HoleFree(v, ino)
    requires 12 + PerTable(v) <= k < BlockCount(v, ino.size)
    ensures k < |Visited(v, ino)| && Visited(v, ino)[k] == FileBlock(v, ino, k)
  {
    hide Low, Reads, Behind, Table, BlockCount, BlockLimit, FileBlock;
    var p := PerTable(v);
    SingleAgrees(v, ino);
    var i, j := InTree(v, ino, k);
    assert FileBlock(v, ino, k) != 0;
    assert UsesDouble(v, ino);
    RowsFilled(v, ino, i, j);
    TimesIsProduct(i, p);
    BehindAt(v, Table(v, ino.blocks[13]), BlockCount(v, ino.size) - (12 + p), i, j);
  }

  /** The walk visits the file's blocks in order. */
  lemma {:induction false} VisitedAgrees(v: Volume, ino: Inode)
    requires ValidVolume(v) && ValidInode(ino) && HoleFree(v, ino)
    ensures Agrees(v, ino, Visited(v, ino), BlockCount(v, ino.size))
  {
    var n, p := BlockCount(v, ino.size), PerTable(v);
    DirectAgrees(v, ino);
    if n > 12 {
      SingleAgrees(v, ino);
    }
    if n > 12 + p {
      DoubleAgreesAt(v, ino, n - 1);
    }
    forall k | 0 <= k < n
      ensures Visited(v, ino)[k] == FileBlock(v, ino, k)
    {
      if k >= 12 + p {
        DoubleAgreesAt(v, ino, k);
      }
    }
  }

  lemma {:induction false} ReadsSkipZero(t: seq<nat>, need: nat, grouped: bool)
    ensures 0 !in Reads(t, need, grouped)
    decreases |t|
  {
    if need > 0 && t != [] && t[0] != 0 {
      var n := Group(t, grouped);
      ReadsSkipZero(t[n..], Minus(need, n), grouped);
    }
  }

  lemma {:induction false} BehindSkipsZero(v: Volume, l1: seq<nat>, need: nat)
    requires ValidVolume(v)
    ensures 0 !in Behind(v, l1, need)
    decreases |l1|
  {
    hide Reads, BlockLimit;
    if need > 0 && l1 != [] && l1[0] != 0 {
      var leaf := Reads(Pointers(v, l1[0]), need, false);
      ReadsSkipZero(Pointers(v, l1[0]), need, false);
      BehindSkipsZero(v, l1[1..], Minus(need, |leaf|));
    }
  }

  /** A file without holes makes the loader read a pointer table only for blocks that are behind it: none for
      twelve blocks, and only the first for as many more as that holds. */
  lemma {:induction false} TablesOnlyIfNeeded(v: Volume, ino: Inode)
    requires ValidVolume(v) && ValidInode(ino) && HoleFree(v, ino)
    ensures BlockCount(v, ino.size) <= 12 ==> TablesRead(v, ino) == []
    ensures BlockCount(v, ino.size) <= 12 + PerTable(v) ==> TablesRead(v, ino) <= [ino.blocks[12]]
  {
    hide Direct, Low, BlockCount, Reads;
    DirectAgrees(v, ino);
    if BlockCount(v, ino.size) > 12 {
      SingleAgrees(v, ino);
    } else {
      NothingSingle(v, ino);
    }
  }

  lemma {:induction false} NothingSingle(v: Volume, ino: Inode)
    requires ValidVolume(v) && ValidInode(ino) && !UsesSingle(v, ino)
    ensures Low(v, ino) == Direct(v, ino)
  {
  }

  /** No block the walk visits is a hole. */
  lemma {:induction false} VisitedSkipsZero(v: Volume, ino: Inode)
    requires ValidVolume(v) && ValidInode(ino)
    ensures 0 !in Visited(v, ino)
  {
    hide Reads, Behind, BlockCount;
    ReadsSkipZero(ino.blocks[..12], Left(v, ino.size, []), true);
    ReadsSkipZero(Pointers(v, ino.blocks[12]), Left(v, ino.size, Direct(v, ino)), true);
    BehindSkipsZero(v, Pointers(v, ino.blocks[13]), Left(v, ino.size, Low(v, ino)));
  }

  /** The walk stops a level at its first zero pointer and goes on with the next level, so it visits
      the file's blocks in their places if and only if the file has no hole. */
  lemma {:induction false} WalkFollowsFileIffHoleFree(v: Volume, ino: Inode)
    requires ValidVolume(v) && ValidInode(ino)
    ensures Agrees(v, ino, Visited(v, ino), BlockCount(v, ino.size)) <==> HoleFree(v, ino)
  {
    if HoleFree(v, ino) {
      VisitedAgrees(v, ino);
    }
    VisitedSkipsZero(v, ino);
  }

  /** A file of two blocks whose second is a hole: on every volume the walk goes astray. */
  lemma {:induction false} HoleMisleadsWalk(v: Volume)
    requires ValidVolume(v)
    ensures var ino := Inode(2 * v.blockSize, [1] + seq(14, i => 0));
            ValidInode(ino) && !Agrees(v, ino, Visited(v, ino), BlockCount(v, ino.size))
  {
    var ino := Inode(2 * v.blockSize, [1] + seq(14, i => 0));
    WalkFollowsFileIffHoleFree(v, ino);
    assert FileBlock(v, ino, 1) == 0;
  }

  lemma {:induction false} ContentAt(v: Volume, blocks: seq<nat>, off: nat)
    requires ValidVolume(v) && AllReadable(v, blocks) && off < Times(|blocks|, v.blockSize)
    ensures |Content(v, blocks)| == Times(|blocks|, v.blockSize) && off / v.blockSize < |blocks|
    ensures Content(v, blocks)[off] == BlockBytes(v, blocks[off / v.blockSize])[off % v.blockSize]
    decreases |blocks|
  {
    hide BlockBytes, BlockLimit;
    ContentLength(v, blocks);
    var n := |blocks| - 1;
    ContentLength(v, blocks[..n]);
    if off < Times(n, v.blockSize) {
      ContentAt(v, blocks[..n], off);
      assert blocks[..n][off / v.blockSize] == blocks[off / v.blockSize];
    } else {
      TimesIsProduct(n, v.blockSize);
      Quotient(off, n, v.blockSize);
    }
  }

  /** Where the bytes of a block are on the disk. */
  lemma {:induction false} BlockOnDisk(v: Volume, block: nat, k: nat)
    requires ValidVolume(v) && Readable(v, block) && k < v.blockSize
    ensures v.partLba * 512 + block * v.blockSize + k < |v.image|
    ensures BlockBytes(v, block)[k] == v.image[v.partLba * 512 + block * v.blockSize + k]
  {
    hide BlockLimit;
    ReadableFits(v, block);
    TimesIsProduct(block, v.blockSize);
  }

  /** Entry `i` of an indirect block is the number whose bytes, least significant first, are on the disk at
      four times `i`. */
  lemma {:induction false} EntryOnDisk(v: Volume, block: nat, i: nat, x: nat)
    requires ValidVolume(v) && block != 0 && Readable(v, block) && i < PerTable(v) && x < 0x1_0000_0000
    requires var at := v.partLba * 512 + block * v.blockSize + 4 * i;
             && at + 4 <= |v.image|
             && v.image[at] == x % 0x100 && v.image[at + 1] == x / 0x100 % 0x100
             && v.image[at + 2] == x / 0x1_0000 % 0x100 && v.image[at + 3] == x / 0x100_0000
    ensures Entry(v, block, i) == x
  {
    hide BlockBytes, BlockLimit;
    BlockOnDisk(v, block, 4 * i);
    BlockOnDisk(v, block, 4 * i + 1);
    BlockOnDisk(v, block, 4 * i + 2);
    BlockOnDisk(v, block, 4 * i + 3);
    LittleEndian(BlockBytes(v, block), 4 * i, x);
  }

  /** For a file without holes the visited blocks cover the whole size, and each byte of their
      content is the byte of the file. */
  lemma {:induction false} HoleFreeFileIsCopiedExactly(v: Volume, ino: Inode, off: nat)
    requires ValidVolume(v) && ValidInode(ino) && HoleFree(v, ino) && Sound(v, ino) && off < ino.size
    ensures Min(ino.size, |Content(v, Visited(v, ino))|) == ino.size
    ensures Readable(v, FileBlock(v, ino, off / v.blockSize))
    ensures Content(v, Visited(v, ino))[off] == FileByte(v, ino, off)
  {
    hide Visited, Content, FileBlock, BlockCount, Times, Readable, BlockBytes, HoleFree;
    VisitedAgrees(v, ino);
    BlockInFile(v, ino, off);
    TimesAdd(BlockCount(v, ino.size), |Visited(v, ino)| - BlockCount(v, ino.size), v.blockSize);
    ContentAt(v, Visited(v, ino), off);
  }

  lemma {:induction false} BlockInFile(v: Volume, ino: Inode, off: nat)
    requires ValidVolume(v) && off < ino.size
    ensures off / v.blockSize < BlockCount(v, ino.size) && ino.size <= Times(BlockCount(v, ino.size), v.blockSize)
  {
    TimesIsProduct(BlockCount(v, ino.size), v.blockSize);
  }

  /** The boot loader as its caller sees it: for a file without holes that fits direct, single and
      double indirect blocks, the size comes back and the file's bytes lie at `dest`, in fast and
      in legacy mode alike. */
  method LoadFile(loader: Loader, ino: Inode, dest: nat) returns (written: nat)
    requires ValidVolume(loader.vol) && ValidInode(ino) && Sound(loader.vol, ino) && HoleFree(loader.vol, ino)
    requires HIGH <= dest && dest + |Content(loader.vol, Visited(loader.vol, ino))| <= |loader.mem|
    modifies loader
    ensures written == ino.size && dest + ino.size <= |loader.mem|
    ensures forall off | 0 <= off < ino.size :: Delivered(loader.vol, ino, loader.mem, dest, off)
  {
    written := loader.CopyFileBlocks(ino, dest);
    if ino.size > 0 {
      HoleFreeFileIsCopiedExactly(loader.vol, ino, 0);
    }
    forall off | 0 <= off < ino.size
      ensures Delivered(loader.vol, ino, loader.mem, dest, off)
    {
      HoleFreeFileIsCopiedExactly(loader.vol, ino, off);
      assert loader.mem[dest..dest + written][off] == loader.mem[dest + off];
    }
  }
}
