/** The boot loader's file copy: block pointers are walked through fixed low-memory tables, runs of
    consecutive blocks are read together, and data reaches high memory through a bounce buffer.

    The machine is one byte-addressed memory and a disk image. A BIOS read and `copy_high` are
    memory copies; a failing BIOS read halts the loader and is not modelled. Sizes and addresses
    are 32-bit in the loader: only the block-to-sector product can exceed that and is written out. */
module Ext2Loader {

  import opened Common

  const SECTOR: nat := 512
  const U32: nat := 0x1_0000_0000

  // Low memory, in ascending order. The tables end below 0x4000.
  const LOW_BUF: nat := 0x1000
  const INDIRECT_BUF: nat := 0x2000
  const L1_BUF: nat := 0x3000
  const TABLES_END: nat := 0x4000
  const HIGH_BOUNCE: nat := 0x1_0000
  const HIGH: nat := 0x2_0000
  const MAX_BIOS_SECTORS: nat := 127

  /** `n * b`, unfolding one block at a time. */
  function Times(n: nat, b: nat): nat { if n == 0 then 0 else Times(n - 1, b) + b }

  lemma {:induction false} TimesIsProduct(n: nat, b: nat)
    ensures Times(n, b) == n * b
  {
    if n > 0 {
      TimesIsProduct(n - 1, b);
      assert n * b == (n - 1) * b + b;
    }
  }

  lemma {:induction false} TimesAdd(m: nat, n: nat, b: nat)
    ensures Times(m + n, b) == Times(m, b) + Times(n, b)
  {
    if n > 0 {
      TimesAdd(m, n - 1, b);
    }
  }

  // ---- Memory ----

  function Poke(mem: seq<byte>, at: nat, data: seq<byte>): (r: seq<byte>)
    requires at + |data| <= |mem|
    ensures |r| == |mem| && r[at..at + |data|] == data
    ensures r[..at] == mem[..at] && r[at + |data|..] == mem[at + |data|..]
  {
    mem[..at] + data + mem[at + |data|..]
  }

  lemma {:induction false} PokeKeeps(mem: seq<byte>, at: nat, data: seq<byte>, lo: nat, hi: nat)
    requires at + |data| <= |mem| && lo <= hi <= |mem| && (hi <= at || at + |data| <= lo)
    ensures Poke(mem, at, data)[lo..hi] == mem[lo..hi]
  {
    var r := Poke(mem, at, data);
    if hi <= at {
      assert r[lo..hi] == r[..at][lo..hi] == mem[..at][lo..hi];
    } else {
      var a := at + |data|;
      assert r[lo..hi] == r[a..][lo - a..hi - a] == mem[a..][lo - a..hi - a];
    }
  }

  /** `m1` is `m0` after reading `data` to `dest`: neither the pointer tables nor the high memory
      below `dest` changed. */
  predicate Landed(m0: seq<byte>, m1: seq<byte>, dest: nat, data: seq<byte>) {
    && |m1| == |m0| && HIGH <= dest && dest + |data| <= |m1|
    && m1[dest..dest + |data|] == data
    && m1[HIGH..dest] == m0[HIGH..dest]
    && m1[INDIRECT_BUF..TABLES_END] == m0[INDIRECT_BUF..TABLES_END]
  }

  lemma {:induction false} LandedNothing(m: seq<byte>, dest: nat, data: seq<byte>)
    requires HIGH <= dest <= |m| && data == []
    ensures Landed(m, m, dest, data)
  {
  }

  lemma {:induction false} LandedTwice(m0: seq<byte>, m1: seq<byte>, m2: seq<byte>, dest: nat, a: seq<byte>, b: seq<byte>)
    requires Landed(m0, m1, dest, a) && Landed(m1, m2, dest + |a|, b)
    ensures Landed(m0, m2, dest, a + b)
  {
    var mid, end := dest + |a|, dest + |a| + |b|;
    assert m2[dest..end] == m2[dest..mid] + m2[mid..end];
    assert m2[dest..mid] == m2[HIGH..mid][dest - HIGH..] == m1[HIGH..mid][dest - HIGH..] == m1[dest..mid];
    assert m2[HIGH..dest] == m2[HIGH..mid][..dest - HIGH] == m1[HIGH..mid][..dest - HIGH] == m1[HIGH..dest];
  }

  /** A sector group read into a low buffer outside the tables and copied up. */
  lemma {:induction false} Bounced(m0: seq<byte>, buf: nat, dest: nat, data: seq<byte>)
    requires HIGH <= dest && dest + |data| <= |m0|
    requires buf + |data| <= INDIRECT_BUF || (TABLES_END <= buf && buf + |data| <= HIGH)
    ensures var m1 := Poke(m0, buf, data);
            m1[buf..buf + |data|] == data && Landed(m0, Poke(m1, dest, data), dest, data)
  {
    var m1 := Poke(m0, buf, data);
    PokeKeeps(m0, buf, data, INDIRECT_BUF, TABLES_END);
    PokeKeeps(m0, buf, data, HIGH, dest);
    PokeKeeps(m1, dest, data, INDIRECT_BUF, TABLES_END);
    PokeKeeps(m1, dest, data, HIGH, dest);
  }

  // ---- The volume ----

  datatype Volume = Volume(image: seq<byte>, partLba: nat, blockSize: nat)

  predicate ValidVolume(v: Volume) {
    v.blockSize == 1024 || v.blockSize == 2048 || v.blockSize == 4096
  }

  function Offset(v: Volume, block: nat): nat { v.partLba * SECTOR + Times(block, v.blockSize) }

  function Sectors(v: Volume, lba: nat, n: nat): (r: seq<byte>)
    requires (lba + n) * SECTOR <= |v.image|
    ensures |r| == n * SECTOR
  {
    v.image[lba * SECTOR..(lba + n) * SECTOR]
  }

  lemma {:induction false} SectorsConcat(v: Volume, lba: nat, m: nat, n: nat)
    requires (lba + m + n) * SECTOR <= |v.image|
    ensures Sectors(v, lba, m) + Sectors(v, lba + m, n) == Sectors(v, lba, m + n)
  {
    var i, j, k := lba * SECTOR, (lba + m) * SECTOR, (lba + m + n) * SECTOR;
    assert v.image[i..j] + v.image[j..k] == v.image[i..k];
  }

  function SectorsPerBlock(v: Volume): nat { v.blockSize / SECTOR }

  /** The sector of a block as the loader computes it, in 32 bits. */
  function BlockToLba(v: Volume, block: nat): nat {
    (v.partLba + block * v.blockSize % U32 / SECTOR) % U32
  }

  /** The number of blocks that lie on the disk and within reach of 32-bit arithmetic: the first
      4 GiB of the partition, at sectors below 2^32. */
  function BlockLimit(v: Volume): nat
    requires ValidVolume(v)
  {
    var start := v.partLba * SECTOR;
    if v.partLba >= U32 || start >= |v.image| then 0
    else Min(Min(U32, (U32 - v.partLba) * SECTOR), |v.image| - start) / v.blockSize
  }

  predicate Readable(v: Volume, block: nat)
    requires ValidVolume(v)
  {
    block < BlockLimit(v)
  }

  lemma {:induction false} ReadableFits(v: Volume, block: nat)
    requires ValidVolume(v) && Readable(v, block)
    ensures block * v.blockSize + v.blockSize <= 0x1_0000_0000
    ensures v.partLba + block * v.blockSize / 512 < 0x1_0000_0000
    ensures Offset(v, block) + v.blockSize <= |v.image|
  {
    TimesIsProduct(block, v.blockSize);
  }

  lemma {:induction false} LbaIsExact(v: Volume, block: nat)
    requires ValidVolume(v) && Readable(v, block)
    ensures BlockToLba(v, block) * SECTOR == Offset(v, block)
    ensures SectorsPerBlock(v) * SECTOR == v.blockSize
    ensures Offset(v, block) + v.blockSize <= |v.image|
  {
    hide BlockLimit, Times;
    ReadableFits(v, block);
    TimesIsProduct(block, v.blockSize);
    WholeSectors(block, v.blockSize);
    NoWrap(v.partLba, block * v.blockSize);
  }

  lemma {:induction false} WholeSectors(block: nat, size: nat)
    requires size % SECTOR == 0
    ensures Times(block, size) % SECTOR == 0
  {
    if block > 0 {
      WholeSectors(block - 1, size);
    }
  }

  lemma {:induction false} NoWrap(start: nat, bytes: nat)
    requires bytes < U32 && bytes % SECTOR == 0 && start + bytes / SECTOR < U32
    ensures (start + bytes % U32 / SECTOR) % U32 * SECTOR == start * SECTOR + bytes
  {
  }

  function BlockBytes(v: Volume, block: nat): (r: seq<byte>)
    requires ValidVolume(v) && Readable(v, block)
    ensures |r| == v.blockSize
  {
    ReadableFits(v, block);
    v.image[Offset(v, block)..Offset(v, block) + v.blockSize]
  }

  predicate AllReadable(v: Volume, blocks: seq<nat>)
    requires ValidVolume(v)
  {
    forall i | 0 <= i < |blocks| :: Readable(v, blocks[i])
  }

  /** Plain block-by-block content of a list of blocks. */
  function Content(v: Volume, blocks: seq<nat>): seq<byte>
    requires ValidVolume(v) && AllReadable(v, blocks)
  {
    if blocks == [] then []
    else Content(v, blocks[..|blocks| - 1]) + BlockBytes(v, blocks[|blocks| - 1])
  }

  lemma {:induction false} ContentLength(v: Volume, blocks: seq<nat>)
    requires ValidVolume(v) && AllReadable(v, blocks)
    ensures |Content(v, blocks)| == Times(|blocks|, v.blockSize)
  {
    if blocks != [] {
      ContentLength(v, blocks[..|blocks| - 1]);
    }
  }

  lemma {:induction false} ContentConcat(v: Volume, a: seq<nat>, b: seq<nat>)
    requires ValidVolume(v) && AllReadable(v, a) && AllReadable(v, b)
    ensures AllReadable(v, a + b) && Content(v, a + b) == Content(v, a) + Content(v, b)
    decreases |b|
  {
    hide BlockBytes, BlockLimit;
    if b == [] {
      assert a + b == a;
    } else {
      var n := |b| - 1;
      ContentConcat(v, a, b[..n]);
      assert (a + b)[..|a + b| - 1] == a + b[..n];
      assert (Content(v, a) + Content(v, b[..n])) + BlockBytes(v, b[n]) ==
             Content(v, a) + (Content(v, b[..n]) + BlockBytes(v, b[n]));
    }
  }

  /** A run of consecutive blocks is one contiguous piece of the image. */
  lemma {:induction false} RunIsExtent(v: Volume, first: nat, blocks: seq<nat>)
    requires ValidVolume(v) && AllReadable(v, blocks) && blocks != []
    requires forall i | 0 <= i < |blocks| :: blocks[i] == first + i
    ensures Offset(v, first) <= Offset(v, first + |blocks|) <= |v.image|
    ensures Content(v, blocks) == v.image[Offset(v, first)..Offset(v, first + |blocks|)]
    decreases |blocks|
  {
    hide Times, Offset, BlockLimit;
    var n := |blocks| - 1;
    OffsetNext(v, first + n);
    ReadableFits(v, blocks[n]);
    if n > 0 {
      RunIsExtent(v, first, blocks[..n]);
      Adjoin(v.image, Offset(v, first), Offset(v, first + n), Offset(v, first + n + 1));
    } else {
      assert blocks[..0] == [] && [] + BlockBytes(v, first) == BlockBytes(v, first);
    }
  }

  lemma {:induction false} OffsetNext(v: Volume, block: nat)
    ensures Offset(v, block + 1) == Offset(v, block) + v.blockSize
  {
  }

  lemma {:induction false} Adjoin(m: seq<byte>, a: nat, b: nat, c: nat)
    requires a <= b <= c <= |m|
    ensures m[a..b] + m[b..c] == m[a..c]
  {
  }

  // ---- Pointer tables ----

  function Ru32(mem: seq<byte>, at: nat): nat
    requires at + 4 <= |mem|
  {
    (mem[at] as int) + (mem[at + 1] as int) * 0x100 + (mem[at + 2] as int) * 0x1_0000 +
    (mem[at + 3] as int) * 0x100_0000
  }

  /** A number laid down with its least significant byte first is read back. */
  lemma {:induction false} LittleEndian(mem: seq<byte>, at: nat, x: nat)
    requires x < 0x1_0000_0000 && at + 4 <= |mem|
    requires mem[at] == x % 0x100 && mem[at + 1] == x / 0x100 % 0x100
    requires mem[at + 2] == x / 0x1_0000 % 0x100 && mem[at + 3] == x / 0x100_0000
    ensures Ru32(mem, at) == x
  {
    var y, z := x / 0x100, x / 0x1_0000;
    assert x == y * 0x100 + x % 0x100;
    assert z == y / 0x100 && y == z * 0x100 + y % 0x100;
    assert x / 0x100_0000 == z / 0x100 && z == z / 0x100 * 0x100 + z % 0x100;
  }

  /** The pointers stored in an indirect block. */
  function Table(v: Volume, block: nat): (t: seq<nat>)
    requires ValidVolume(v) && Readable(v, block)
    ensures |t| == v.blockSize / 4
  {
    seq(v.blockSize / 4, i requires 0 <= i < v.blockSize / 4 => Ru32(BlockBytes(v, block), 4 * i))
  }

  /** The table `t` sits in memory at `at`. */
  predicate Holds(mem: seq<byte>, at: nat, t: seq<nat>) {
    at + 4 * |t| <= |mem| && forall i | 0 <= i < |t| :: Ru32(mem, at + 4 * i) == t[i]
  }

  lemma {:induction false} SubSlice(m: seq<byte>, lo: nat, hi: nat, a: nat, b: nat)
    requires lo <= hi <= |m| && a <= b <= hi - lo
    ensures m[lo..hi][a..b] == m[lo + a..lo + b]
  {
    var x, y := m[lo..hi][a..b], m[lo + a..lo + b];
    assert forall i | 0 <= i < b - a :: x[i] == m[lo..hi][a + i] == y[i];
  }

  lemma {:induction false} SameWord(m1: seq<byte>, a1: nat, m2: seq<byte>, a2: nat)
    requires a1 + 4 <= |m1| && a2 + 4 <= |m2| && m1[a1..a1 + 4] == m2[a2..a2 + 4]
    ensures Ru32(m1, a1) == Ru32(m2, a2)
  {
    var w1, w2 := m1[a1..a1 + 4], m2[a2..a2 + 4];
    assert w1[0] == w2[0] && w1[1] == w2[1] && w1[2] == w2[2] && w1[3] == w2[3];
  }

  lemma {:induction false} TableHolds(v: Volume, block: nat, mem: seq<byte>, at: nat)
    requires ValidVolume(v) && Readable(v, block) && at + v.blockSize <= |mem|
    requires mem[at..at + v.blockSize] == BlockBytes(v, block)
    ensures Holds(mem, at, Table(v, block))
  {
    var b := BlockBytes(v, block);
    forall i | 0 <= i < v.blockSize / 4
      ensures Ru32(mem, at + 4 * i) == Table(v, block)[i]
    {
      SubSlice(mem, at, at + v.blockSize, 4 * i, 4 * i + 4);
      SubSlice(b, 0, |b|, 4 * i, 4 * i + 4);
      SameWord(mem, at + 4 * i, b, 4 * i);
    }
  }

  /** Data reads leave both tables alone. */
  lemma {:induction false} LandedKeepsTable(m0: seq<byte>, m1: seq<byte>, dest: nat, data: seq<byte>, at: nat, t: seq<nat>)
    requires Landed(m0, m1, dest, data) && Holds(m0, at, t)
    requires INDIRECT_BUF <= at && at + 4 * |t| <= TABLES_END
    ensures Holds(m1, at, t)
  {
    forall i | 0 <= i < |t|
      ensures Ru32(m1, at + 4 * i) == t[i]
    {
      var o := at + 4 * i - INDIRECT_BUF;
      SubSlice(m1, INDIRECT_BUF, TABLES_END, o, o + 4);
      SubSlice(m0, INDIRECT_BUF, TABLES_END, o, o + 4);
      SameWord(m1, at + 4 * i, m0, at + 4 * i);
    }
  }

  lemma {:induction false} ContentEmpty(v: Volume, blocks: seq<nat>)
    requires ValidVolume(v) && blocks == []
    ensures Content(v, blocks) == []
  {
  }

  lemma {:induction false} ContentStep(v: Volume, run: seq<nat>, i: nat)
    requires ValidVolume(v) && AllReadable(v, run) && i < |run|
    ensures Content(v, run[..i + 1]) == Content(v, run[..i]) + BlockBytes(v, run[i])
    ensures |Content(v, run[..i])| == i * v.blockSize
    ensures |Content(v, run[..i])| + v.blockSize <= |Content(v, run)|
  {
    assert run[..i + 1][..i] == run[..i] && run[..i + 1][i] == run[i];
    ContentLength(v, run[..i]);
    TimesIsProduct(i, v.blockSize);
    assert run == run[..i + 1] + run[i + 1..];
    ContentConcat(v, run[..i + 1], run[i + 1..]);
  }

  lemma {:induction false} Associate(a: nat, b: nat, c: nat)
    ensures a * b * c == a * (b * c)
  {
  }

  /** The same run in sectors, as fast mode asks for it. */
  lemma {:induction false} RunSectors(v: Volume, first: nat, count: nat, run: seq<nat>)
    requires ValidVolume(v) && |run| == count > 0 && AllReadable(v, run)
    requires forall i | 0 <= i < count :: run[i] == first + i
    ensures (BlockToLba(v, first) + count * SectorsPerBlock(v)) * SECTOR <= |v.image|
    ensures Sectors(v, BlockToLba(v, first), count * SectorsPerBlock(v)) == Content(v, run)
  {
    RunIsExtent(v, first, run);
    assert Readable(v, run[0]);
    LbaIsExact(v, first);
    TimesAdd(first, count, v.blockSize);
    TimesIsProduct(count, v.blockSize);
    Associate(count, SectorsPerBlock(v), SECTOR);
  }

  // ---- Which blocks the loader visits ----

  datatype Inode = Inode(size: nat, blocks: seq<nat>)

  predicate ValidInode(ino: Inode) { |ino.blocks| == 15 }

  /** The number of blocks a file of `size` bytes takes. */
  function BlockCount(v: Volume, size: nat): nat
    requires ValidVolume(v)
  {
    (size + v.blockSize - 1) / v.blockSize
  }

  lemma {:induction false} SizeBeyond(v: Volume, size: nat, m: nat)
    requires ValidVolume(v)
    ensures m < BlockCount(v, size) <==> Times(m, v.blockSize) < size
  {
    TimesIsProduct(m, v.blockSize);
  }

  function Minus(a: nat, b: nat): nat { if b <= a then a - b else 0 }

  /** How far the pointers at the front of `t` count up by one, given that the first `k` do. */
  function RunFrom(t: seq<nat>, k: nat): (n: nat)
    requires 0 < k <= |t| && forall j | 0 <= j < k :: t[j] == t[0] + j
    ensures k <= n <= |t| && forall j | 0 <= j < n :: t[j] == t[0] + j
    decreases |t| - k
  {
    if k < |t| && t[k] != 0 && t[k] == t[0] + k then RunFrom(t, k + 1) else k
  }

  /** The pointers at the front of `t` that one read serves. */
  function Group(t: seq<nat>, grouped: bool): (n: nat)
    requires t != []
    ensures 0 < n <= |t| && forall j | 0 <= j < n :: t[j] == t[0] + j
  {
    if grouped then RunFrom(t, 1) else 1
  }

  /** Consecutive pointers are read together, all of them. */
  lemma {:induction false} GroupIsLongest(t: seq<nat>)
    requires t != [] && t[0] != 0
    ensures var n := Group(t, true); n == |t| || t[n] != t[0] + n
    ensures Group(t, false) == 1
  {
    RunIsLongest(t, 1);
  }

  lemma {:induction false} RunIsLongest(t: seq<nat>, k: nat)
    requires 0 < k <= |t| && t[0] != 0 && forall j | 0 <= j < k :: t[j] == t[0] + j
    ensures var n := RunFrom(t, k); n == |t| || t[n] != t[0] + n
    decreases |t| - k
  {
    if k < |t| && t[k] != 0 && t[k] == t[0] + k {
      RunIsLongest(t, k + 1);
    }
  }

  /** The pointers of a table whose blocks are read when `need` blocks are wanted: up to the first
      zero, and no group further than needed. */
  function Reads(t: seq<nat>, need: nat, grouped: bool): (r: seq<nat>)
    ensures r <= t
    decreases |t|
  {
    if need == 0 || t == [] || t[0] == 0 then []
    else
      var n := Group(t, grouped);
      t[..n] + Reads(t[n..], Minus(need, n), grouped)
  }

  /** Of the walk over `t` the first `i` pointers are behind. */
  predicate Reading(t: seq<nat>, i: nat, need: nat, grouped: bool) {
    i <= |t| && Reads(t, need, grouped) == t[..i] + Reads(t[i..], Minus(need, i), grouped)
  }

  lemma {:induction false} ReadingStarts(t: seq<nat>, need: nat, grouped: bool)
    ensures Reading(t, 0, need, grouped)
  {
    assert t[0..] == t;
  }

  lemma {:induction false} ReadingNext(t: seq<nat>, i: nat, need: nat, grouped: bool)
    requires Reading(t, i, need, grouped) && i < |t| && t[i] != 0 && i < need
    ensures Reading(t, i + Group(t[i..], grouped), need, grouped)
  {
    hide Reads, Group;
    var c, left := Group(t[i..], grouped), Minus(need, i);
    FirstGroup(t[i..], left, grouped);
    assert t[i..][c..] == t[i + c..] && t[..i] + t[i..][..c] == t[..i + c];
    Reassociate(t[..i], t[i..][..c], Reads(t[i + c..], Minus(left, c), grouped));
  }

  lemma {:induction false} FirstGroup(t: seq<nat>, need: nat, grouped: bool)
    requires t != [] && t[0] != 0 && need > 0
    ensures var n := Group(t, grouped); Reads(t, need, grouped) == t[..n] + Reads(t[n..], Minus(need, n), grouped)
  {
  }

  lemma {:induction false} ReadingEnds(t: seq<nat>, i: nat, need: nat, grouped: bool)
    requires Reading(t, i, need, grouped) && (i == |t| || t[i] == 0 || need <= i)
    ensures Reads(t, need, grouped) == t[..i]
  {
  }

  lemma {:induction false} Resplit(done: seq<nat>, t: seq<nat>, i: nat, count: nat)
    requires i + count <= |t|
    ensures (done + t[..i]) + t[i..i + count] == done + t[..i + count]
  {
    assert t[..i] + t[i..i + count] == t[..i + count];
  }

  /** The next group is readable and has room. */
  lemma {:induction false} NextRun(v: Volume, t: seq<nat>, i: nat, need: nat, grouped: bool, done: seq<nat>)
    returns (run: seq<nat>, after: seq<nat>)
    requires ValidVolume(v) && Reading(t, i, need, grouped) && i < |t| && t[i] != 0 && i < need
    requires AllReadable(v, Reads(t, need, grouped)) && AllReadable(v, done)
    ensures var n := i + Group(t[i..], grouped);
            && run == t[i..n] && after == done + t[..n] == (done + t[..i]) + run && Reading(t, n, need, grouped)
    ensures AllReadable(v, run) && AllReadable(v, done + t[..i])
    ensures |Content(v, done + t[..i])| + |Content(v, run)| <=
            |Content(v, done)| + |Content(v, Reads(t, need, grouped))|
  {
    hide Content, BlockLimit, Reads, Group;
    var n := i + Group(t[i..], grouped);
    run, after := t[i..n], done + t[..n];
    ReadingNext(t, i, need, grouped);
    Resplit(done, t, i, n - i);
    assert t[..n] == t[..i] + run;
    ContentParts(v, done, t[..i], run, Reads(t[n..], Minus(need, n), grouped));
  }

  /** The pointers in an indirect block, none if it cannot be read. */
  function Pointers(v: Volume, block: nat): seq<nat>
    requires ValidVolume(v)
  {
    if Readable(v, block) then Table(v, block) else []
  }

  /** The blocks read through a table of tables when `need` blocks are wanted. */
  function Behind(v: Volume, l1: seq<nat>, need: nat): seq<nat>
    requires ValidVolume(v)
    decreases |l1|
  {
    if need == 0 || l1 == [] || l1[0] == 0 then []
    else
      var leaf := Reads(Pointers(v, l1[0]), need, false);
      leaf + Behind(v, l1[1..], Minus(need, |leaf|))
  }

  /** The second-level tables read on the way. */
  function TablesBehind(v: Volume, l1: seq<nat>, need: nat): seq<nat>
    requires ValidVolume(v)
    decreases |l1|
  {
    if need == 0 || l1 == [] || l1[0] == 0 then []
    else [l1[0]] + TablesBehind(v, l1[1..], Minus(need, |Reads(Pointers(v, l1[0]), need, false)|))
  }

  /** How many blocks are still wanted behind `done`. */
  function Left(v: Volume, size: nat, done: seq<nat>): nat
    requires ValidVolume(v)
  {
    Minus(BlockCount(v, size), |done|)
  }

  function Direct(v: Volume, ino: Inode): seq<nat>
    requires ValidVolume(v) && ValidInode(ino)
  {
    Reads(ino.blocks[..12], Left(v, ino.size, []), true)
  }

  predicate UsesSingle(v: Volume, ino: Inode)
    requires ValidVolume(v) && ValidInode(ino)
  {
    Left(v, ino.size, Direct(v, ino)) > 0 && ino.blocks[12] != 0
  }

  function Single(v: Volume, ino: Inode): seq<nat>
    requires ValidVolume(v) && ValidInode(ino)
  {
    if UsesSingle(v, ino) then Reads(Pointers(v, ino.blocks[12]), Left(v, ino.size, Direct(v, ino)), true) else []
  }

  function Low(v: Volume, ino: Inode): seq<nat>
    requires ValidVolume(v) && ValidInode(ino)
  {
    Direct(v, ino) + Single(v, ino)
  }

  predicate UsesDouble(v: Volume, ino: Inode)
    requires ValidVolume(v) && ValidInode(ino)
  {
    Left(v, ino.size, Low(v, ino)) > 0 && ino.blocks[13] != 0
  }

  function Double(v: Volume, ino: Inode): seq<nat>
    requires ValidVolume(v) && ValidInode(ino)
  {
    if UsesDouble(v, ino) then Behind(v, Pointers(v, ino.blocks[13]), Left(v, ino.size, Low(v, ino))) else []
  }

  /** The data blocks the loader reads, in order. */
  function Visited(v: Volume, ino: Inode): (r: seq<nat>)
    requires ValidVolume(v) && ValidInode(ino)
  {
    Low(v, ino) + Double(v, ino)
  }

  /** The pointer tables the loader reads. */
  function TablesRead(v: Volume, ino: Inode): (r: seq<nat>)
    requires ValidVolume(v) && ValidInode(ino)
  {
    (if UsesSingle(v, ino) then [ino.blocks[12]] else []) +
    (if UsesDouble(v, ino)
     then [ino.blocks[13]] + TablesBehind(v, Pointers(v, ino.blocks[13]), Left(v, ino.size, Low(v, ino))) else [])
  }

  /** Every block the loader reads can be read. */
  predicate Sound(v: Volume, ino: Inode)
    requires ValidVolume(v) && ValidInode(ino)
  {
    AllReadable(v, Visited(v, ino)) && AllReadable(v, TablesRead(v, ino))
  }

  lemma {:induction false} SoundParts(v: Volume, ino: Inode)
    requires ValidVolume(v) && ValidInode(ino) && Sound(v, ino)
    ensures AllReadable(v, Direct(v, ino)) && AllReadable(v, Single(v, ino)) && AllReadable(v, Double(v, ino))
    ensures AllReadable(v, Low(v, ino)) && (UsesSingle(v, ino) ==> Readable(v, ino.blocks[12]))
    ensures UsesDouble(v, ino) ==>
              && Readable(v, ino.blocks[13])
              && AllReadable(v, TablesBehind(v, Table(v, ino.blocks[13]), Left(v, ino.size, Low(v, ino))))
    ensures |Content(v, Low(v, ino))| == |Content(v, Direct(v, ino))| + |Content(v, Single(v, ino))|
    ensures |Content(v, Visited(v, ino))| == |Content(v, Low(v, ino))| + |Content(v, Double(v, ino))|
  {
    hide Direct, Single, Double, UsesSingle, UsesDouble, Content, TablesBehind, Table, BlockLimit;
    PartsReadable(v, Low(v, ino), Double(v, ino));
    PartsReadable(v, Direct(v, ino), Single(v, ino));
    var one := if UsesSingle(v, ino) then [ino.blocks[12]] else [];
    var two := if UsesDouble(v, ino)
      then [ino.blocks[13]] + TablesBehind(v, Pointers(v, ino.blocks[13]), Left(v, ino.size, Low(v, ino))) else [];
    PartsReadable(v, one, two);
    if UsesSingle(v, ino) {
      assert one[0] == ino.blocks[12];
    }
    if UsesDouble(v, ino) {
      assert two[0] == ino.blocks[13];
      PartsReadable(v, [two[0]], two[1..]);
    }
  }

  lemma {:induction false} PartsReadable(v: Volume, a: seq<nat>, b: seq<nat>)
    requires ValidVolume(v) && AllReadable(v, a + b)
    ensures AllReadable(v, a) && AllReadable(v, b)
    ensures |Content(v, a + b)| == |Content(v, a)| + |Content(v, b)|
  {
    hide Content, BlockLimit;
    assert forall k | 0 <= k < |a| :: a[k] == (a + b)[k];
    assert forall k | 0 <= k < |b| :: b[k] == (a + b)[|a| + k];
    ContentConcat(v, a, b);
  }

  /** The loader's test in bytes is a test in blocks. */
  lemma {:induction false} StillWanted(v: Volume, done: seq<nat>, written: nat, size: nat)
    requires ValidVolume(v) && AllReadable(v, done) && written == Min(size, |Content(v, done)|)
    ensures written < size <==> Left(v, size, done) > 0
  {
    ContentLength(v, done);
    SizeBeyond(v, size, |done|);
  }

  /** The content of the blocks `done` is in memory at `dest`. */
  predicate At(v: Volume, mem: seq<byte>, dest: nat, done: seq<nat>)
    requires ValidVolume(v) && AllReadable(v, done)
  {
    var c := Content(v, done);
    HIGH <= dest && dest + |c| <= |mem| && mem[dest..dest + |c|] == c
  }

  lemma {:induction false} Extend(v: Volume, m0: seq<byte>, m1: seq<byte>, dest: nat, done: seq<nat>, more: seq<nat>)
    requires ValidVolume(v) && AllReadable(v, done) && AllReadable(v, more) && At(v, m0, dest, done)
    requires Landed(m0, m1, dest + |Content(v, done)|, Content(v, more))
    ensures AllReadable(v, done + more) && At(v, m1, dest, done + more)
    ensures |Content(v, done + more)| == |Content(v, done)| + |Content(v, more)|
  {
    hide Content, AllReadable, Times;
    ContentConcat(v, done, more);
    Joined(m0, m1, dest, Content(v, done), Content(v, more));
  }

  lemma {:induction false} Joined(m0: seq<byte>, m1: seq<byte>, dest: nat, a: seq<byte>, b: seq<byte>)
    requires HIGH <= dest && dest + |a| <= |m0| && m0[dest..dest + |a|] == a && Landed(m0, m1, dest + |a|, b)
    ensures m1[dest..dest + |a| + |b|] == a + b
  {
    var mid, end := dest + |a|, dest + |a| + |b|;
    assert m1[dest..end] == m1[dest..mid] + m1[mid..end];
    assert m1[dest..mid] == m1[HIGH..mid][dest - HIGH..] == m0[HIGH..mid][dest - HIGH..] == m0[dest..mid];
  }

  lemma {:induction false} AtKept(v: Volume, m0: seq<byte>, at: nat, data: seq<byte>, dest: nat, done: seq<nat>)
    requires ValidVolume(v) && AllReadable(v, done) && At(v, m0, dest, done) && at + |data| <= HIGH <= |m0|
    ensures At(v, Poke(m0, at, data), dest, done)
  {
    PokeKeeps(m0, at, data, dest, dest + |Content(v, done)|);
  }

  // ---- The loader ----

  class Loader {
    const vol: Volume
    const fast: bool        // FAST_HIGH_READS
    var mem: seq<byte>

    constructor (vol: Volume, fast: bool, mem: seq<byte>)
      ensures this.vol == vol && this.fast == fast && this.mem == mem
    {
      this.vol, this.fast, this.mem := vol, fast, mem;
    }

    /** INT 13h: `n` sectors to a low address. */
    method Int13(lba: nat, n: nat, at: nat)
      requires (lba + n) * SECTOR <= |vol.image| && at + n * SECTOR <= |mem|
      modifies this
      ensures mem == Poke(old(mem), at, Sectors(vol, lba, n))
    {
      mem := Poke(mem, at, Sectors(vol, lba, n));
    }

    method CopyHigh(src: nat, dst: nat, len: nat)
      requires src + len <= |mem| && dst + len <= |mem|
      modifies this
      ensures mem == Poke(old(mem), dst, old(mem)[src..src + len])
    {
      mem := Poke(mem, dst, mem[src..src + len]);
    }

    method ReadExtentToHigh(start: nat, total: nat, target: nat)
      requires HIGH <= target && target + total * SECTOR <= |mem| && (start + total) * SECTOR <= |vol.image|
      modifies this
      ensures Landed(old(mem), mem, target, Sectors(vol, start, total))
    {
      hide Sectors, Landed;
      var done := 0;
      LandedNothing(mem, target, Sectors(vol, start, 0));
      while done < total
        invariant done <= total && |mem| == |old(mem)|
        invariant Landed(old(mem), mem, target, Sectors(vol, start, done))
      {
        var n := Min(MAX_BIOS_SECTORS, total - done);
        ghost var m := mem;
        ghost var a := Sectors(vol, start, done);
        ghost var b := Sectors(vol, start + done, n);
        var at := target + done * SECTOR;
        Bounced(m, HIGH_BOUNCE, at, b);
        Int13(start + done, n, HIGH_BOUNCE);
        CopyHigh(HIGH_BOUNCE, at, n * SECTOR);
        assert Landed(m, mem, at, b);
        LandedTwice(old(mem), m, mem, target, a, b);
        SectorsConcat(vol, start, done, n);
        done := done + n;
      }
    }

    method ReadSectors(lba: nat, sectors: nat, target: nat)
      requires sectors * SECTOR <= INDIRECT_BUF - LOW_BUF
      requires HIGH <= target && target + sectors * SECTOR <= |mem| && (lba + sectors) * SECTOR <= |vol.image|
      modifies this
      ensures Landed(old(mem), mem, target, Sectors(vol, lba, sectors))
    {
      if fast {
        ReadExtentToHigh(lba, sectors, target);
      } else {
        Bounced(mem, LOW_BUF, target, Sectors(vol, lba, sectors));
        Int13(lba, sectors, LOW_BUF);
        CopyHigh(LOW_BUF, target, sectors * SECTOR);
      }
    }

    method ReadBlockLow(block: nat, at: nat) returns (ok: bool)
      requires ValidVolume(vol) && (block != 0 ==> Readable(vol, block)) && at + vol.blockSize <= |mem|
      modifies this
      ensures ok <==> block != 0
      ensures mem == if ok then Poke(old(mem), at, BlockBytes(vol, block)) else old(mem)
    {
      if block == 0 {
        return false;
      }
      LbaIsExact(vol, block);
      Int13(BlockToLba(vol, block), SectorsPerBlock(vol), at);
      return true;
    }

    method ReadBlockToHigh(block: nat, dest: nat)
      requires ValidVolume(vol) && (block != 0 ==> Readable(vol, block))
      requires HIGH <= dest && dest + vol.blockSize <= |mem|
      modifies this
      ensures block == 0 ==> mem == old(mem)
      ensures block != 0 ==> Landed(old(mem), mem, dest, BlockBytes(vol, block))
    {
      if block == 0 {
        return;
      }
      LbaIsExact(vol, block);
      ReadSectors(BlockToLba(vol, block), SectorsPerBlock(vol), dest);
    }

    /** Legacy mode: one block at a time. */
    method ReadRunByBlocks(first: nat, blocks: nat, dest: nat, ghost run: seq<nat>)
      requires ValidVolume(vol) && first != 0
      requires |run| == blocks && (forall i | 0 <= i < blocks :: run[i] == first + i) && AllReadable(vol, run)
      requires HIGH <= dest && dest + |Content(vol, run)| <= |mem|
      modifies this
      ensures Landed(old(mem), mem, dest, Content(vol, run))
    {
      hide Content;
      var i := 0;
      ContentEmpty(vol, run[..0]);
      while i < blocks
        invariant i <= blocks
        invariant Landed(old(mem), mem, dest, Content(vol, run[..i]))
      {
        ghost var m := mem;
        ContentStep(vol, run, i);
        assert run[i] == first + i;
        ReadBlockToHigh(first + i, dest + i * vol.blockSize);
        LandedTwice(old(mem), m, mem, dest, Content(vol, run[..i]), BlockBytes(vol, run[i]));
        i := i + 1;
      }
      assert run[..blocks] == run;
    }

    /** Fast mode reads the run as one extent, legacy mode block by block: the same bytes land. */
    method ReadBlockRunToHigh(first: nat, blocks: nat, dest: nat, ghost run: seq<nat>)
      requires ValidVolume(vol) && first != 0 && blocks > 0
      requires |run| == blocks && (forall i | 0 <= i < blocks :: run[i] == first + i) && AllReadable(vol, run)
      requires HIGH <= dest && dest + |Content(vol, run)| <= |mem|
      modifies this
      ensures Landed(old(mem), mem, dest, Content(vol, run))
    {
      if fast {
        RunSectors(vol, first, blocks, run);
        ReadExtentToHigh(BlockToLba(vol, first), blocks * SectorsPerBlock(vol), dest);
      } else {
        ReadRunByBlocks(first, blocks, dest, run);
      }
    }

    /** The next pointer: from the inode, or from the table in the indirect buffer. */
    function Pointer(direct: seq<nat>, fromBuffer: bool, i: nat): nat
      requires if fromBuffer then INDIRECT_BUF + 4 * i + 4 <= |mem| else i < |direct|
      reads this
    {
      if fromBuffer then Ru32(mem, INDIRECT_BUF + 4 * i) else direct[i]
    }

    predicate Stored(direct: seq<nat>, fromBuffer: bool, t: seq<nat>)
      reads this
    {
      if fromBuffer then Holds(mem, INDIRECT_BUF, t) else direct == t
    }

    /** How many pointers from `i` on are consecutive. */
    method RunLength(direct: seq<nat>, fromBuffer: bool, entries: nat, i: nat, ghost t: seq<nat>) returns (count: nat)
      requires |t| == entries && Stored(direct, fromBuffer, t) && i < entries && t[i] != 0
      ensures count == Group(t[i..], true)
    {
      var first := Pointer(direct, fromBuffer, i);
      count := 1;
      while i + count < entries
        invariant 0 < count && i + count <= entries
        invariant forall j | 0 <= j < count :: t[i..][j] == t[i] + j
        invariant RunFrom(t[i..], count) == Group(t[i..], true)
      {
        var next := Pointer(direct, fromBuffer, i + count);
        assert next == t[i..][count];
        if next == 0 || next != first + count {
          break;
        }
        count := count + 1;
      }
    }

    /** So far the blocks `done` have been copied to `dest`, and `written` counts what of them
        belongs to a file of `size` bytes. */
    predicate Copied(dest: nat, done: seq<nat>, written: nat, destPtr: nat, size: nat)
      reads this
    {
      && ValidVolume(vol) && AllReadable(vol, done) && At(vol, mem, dest, done)
      && HIGH <= dest && destPtr == dest + |Content(vol, done)| <= |mem|
      && written == Min(size, |Content(vol, done)|)
    }

    /** Read one run behind what has been copied. */
    method AppendRun(first: nat, count: nat, size: nat, written0: nat, destPtr0: nat,
                     ghost dest: nat, ghost done: seq<nat>, ghost run: seq<nat>, ghost after: seq<nat>)
      returns (written: nat, destPtr: nat)
      requires ValidVolume(vol) && first != 0 && Copied(dest, done, written0, destPtr0, size) && written0 < size
      requires |run| == count > 0 && (forall i | 0 <= i < count :: run[i] == first + i) && AllReadable(vol, run)
      requires destPtr0 + |Content(vol, run)| <= |mem| && after == done + run
      modifies this
      ensures |mem| == |old(mem)| && Landed(old(mem), mem, destPtr0, Content(vol, run))
      ensures Copied(dest, after, written, destPtr, size)
    {
      hide Content, AllReadable, At;
      ReadBlockRunToHigh(first, count, destPtr0, run);
      Extend(vol, old(mem), mem, dest, done, run);
      ContentLength(vol, run);
      TimesIsProduct(count, vol.blockSize);
      var span := count * vol.blockSize;
      written := written0 + Min(span, size - written0);
      destPtr := destPtr0 + span;
    }

    /** One round of the table walk: the longest run from entry `i0` on. */
    method CopyNextRun(direct: seq<nat>, fromBuffer: bool, entries: nat, size: nat, i0: nat,
                       written0: nat, destPtr0: nat, ghost dest: nat, ghost t: seq<nat>, ghost done: seq<nat>)
      returns (i: nat, written: nat, destPtr: nat)
      requires ValidVolume(vol) && |t| == entries && 4 * entries <= L1_BUF - INDIRECT_BUF
      requires Stored(direct, fromBuffer, t) && i0 < entries && t[i0] != 0
      requires Reading(t, i0, Left(vol, size, done), true) && AllReadable(vol, done)
      requires AllReadable(vol, Reads(t, Left(vol, size, done), true))
      requires Copied(dest, done + t[..i0], written0, destPtr0, size) && written0 < size
      requires dest + |Content(vol, done)| + |Content(vol, Reads(t, Left(vol, size, done), true))| <= |mem|
      modifies this
      ensures |mem| == |old(mem)| && Stored(direct, fromBuffer, t)
      ensures i0 < i <= entries && Reading(t, i, Left(vol, size, done), true)
      ensures Copied(dest, done + t[..i], written, destPtr, size)
    {
      hide Content, AllReadable, Reads, RunFrom, Landed, At, Ru32, BlockCount;
      StillWanted(vol, done + t[..i0], written0, size);
      var first := Pointer(direct, fromBuffer, i0);
      var count := RunLength(direct, fromBuffer, entries, i0, t);
      i := i0 + count;
      ghost var run, after := NextRun(vol, t, i0, Left(vol, size, done), true, done);
      RunAt(t, i0, count, run);
      written, destPtr := AppendRun(first, count, size, written0, destPtr0, dest, done + t[..i0], run, after);
      if fromBuffer {
        LandedKeepsTable(old(mem), mem, destPtr0, Content(vol, run), INDIRECT_BUF, t);
      }
    }

    /** The walk over one pointer table. It occurs twice in the loader: over the inode's own twelve
        pointers, and over the table in the indirect buffer, which is read while data moves. */
    method CopyTable(direct: seq<nat>, fromBuffer: bool, entries: nat, size: nat,
                     written0: nat, destPtr0: nat, ghost dest: nat, ghost t: seq<nat>, ghost done: seq<nat>)
      returns (written: nat, destPtr: nat)
      requires ValidVolume(vol) && |t| == entries && 4 * entries <= L1_BUF - INDIRECT_BUF
      requires Stored(direct, fromBuffer, t) && AllReadable(vol, Reads(t, Left(vol, size, done), true))
      requires Copied(dest, done, written0, destPtr0, size)
      requires destPtr0 + |Content(vol, Reads(t, Left(vol, size, done), true))| <= |mem|
      modifies this
      ensures |mem| == |old(mem)|
      ensures Copied(dest, done + Reads(t, Left(vol, size, done), true), written, destPtr, size)
    {
      hide Content, AllReadable, Reads, Reading, At, BlockCount;
      written, destPtr := written0, destPtr0;
      var i := 0;
      assert done + t[..0] == done;
      ReadingStarts(t, Left(vol, size, done), true);
      while i < entries && written < size
        invariant i <= entries && Reading(t, i, Left(vol, size, done), true)
        invariant |mem| == |old(mem)| && Stored(direct, fromBuffer, t)
        invariant Copied(dest, done + t[..i], written, destPtr, size)
        decreases entries - i
      {
        if Pointer(direct, fromBuffer, i) == 0 {
          ReadingEnds(t, i, Left(vol, size, done), true);
          return;
        }
        i, written, destPtr := CopyNextRun(direct, fromBuffer, entries, size, i, written, destPtr, dest, t, done);
      }
      StillWanted(vol, done + t[..i], written, size);
      ReadingEnds(t, i, Left(vol, size, done), true);
    }

    /** One leaf table of the double-indirect tree, block by block, from the indirect buffer. */
    method CopyLeaf(entries: nat, size: nat, written0: nat, destPtr0: nat,
                    ghost dest: nat, ghost t: seq<nat>, ghost done: seq<nat>)
      returns (written: nat, destPtr: nat)
      requires ValidVolume(vol) && |t| == entries && 4 * entries <= L1_BUF - INDIRECT_BUF
      requires Holds(mem, INDIRECT_BUF, t) && AllReadable(vol, Reads(t, Left(vol, size, done), false))
      requires Copied(dest, done, written0, destPtr0, size)
      requires destPtr0 + |Content(vol, Reads(t, Left(vol, size, done), false))| <= |mem|
      modifies this
      ensures |mem| == |old(mem)| && mem[L1_BUF..TABLES_END] == old(mem)[L1_BUF..TABLES_END]
      ensures Copied(dest, done + Reads(t, Left(vol, size, done), false), written, destPtr, size)
    {
      hide Content, AllReadable, Reads, Reading, At, BlockCount;
      written, destPtr := written0, destPtr0;
      assert done + t[..0] == done;
      ReadingStarts(t, Left(vol, size, done), false);
      var j := 0;
      while j < entries && written < size
        invariant j <= entries && Reading(t, j, Left(vol, size, done), false)
        invariant |mem| == |old(mem)| && Holds(mem, INDIRECT_BUF, t)
        invariant mem[L1_BUF..TABLES_END] == old(mem)[L1_BUF..TABLES_END]
        invariant Copied(dest, done + t[..j], written, destPtr, size)
      {
        var b := Ru32(mem, INDIRECT_BUF + 4 * j);
        if b == 0 {
          ReadingEnds(t, j, Left(vol, size, done), false);
          return;
        }
        written, destPtr := CopyLeafBlock(b, size, j, written, destPtr, dest, t, done);
        j := j + 1;
      }
      StillWanted(vol, done + t[..j], written, size);
      ReadingEnds(t, j, Left(vol, size, done), false);
    }

    method CopyLeafBlock(b: nat, size: nat, ghost j: nat, written0: nat, destPtr0: nat,
                         ghost dest: nat, ghost t: seq<nat>, ghost done: seq<nat>)
      returns (written: nat, destPtr: nat)
      requires ValidVolume(vol) && 4 * |t| <= L1_BUF - INDIRECT_BUF && Holds(mem, INDIRECT_BUF, t)
      requires AllReadable(vol, Reads(t, Left(vol, size, done), false)) && AllReadable(vol, done)
      requires j < |t| && t[j] == b != 0 && Reading(t, j, Left(vol, size, done), false)
      requires Copied(dest, done + t[..j], written0, destPtr0, size) && written0 < size
      requires dest + |Content(vol, done)| + |Content(vol, Reads(t, Left(vol, size, done), false))| <= |mem|
      modifies this
      ensures |mem| == |old(mem)| && Holds(mem, INDIRECT_BUF, t)
      ensures Reading(t, j + 1, Left(vol, size, done), false)
      ensures mem[L1_BUF..TABLES_END] == old(mem)[L1_BUF..TABLES_END]
      ensures Copied(dest, done + t[..j + 1], written, destPtr, size)
    {
      hide Content, AllReadable, Reads, Reading, At, Ru32, BlockCount;
      StillWanted(vol, done + t[..j], written0, size);
      ghost var run, after := NextRun(vol, t, j, Left(vol, size, done), false, done);
      written, destPtr := AppendBlock(b, size, written0, destPtr0, dest, done + t[..j], run, after);
      LandedKeepsTable(old(mem), mem, destPtr0, Content(vol, run), INDIRECT_BUF, t);
      TablesKept(old(mem), mem);
    }

    method AppendBlock(b: nat, size: nat, written0: nat, destPtr0: nat,
                       ghost dest: nat, ghost done: seq<nat>, ghost run: seq<nat>, ghost after: seq<nat>)
      returns (written: nat, destPtr: nat)
      requires ValidVolume(vol) && b != 0 && Copied(dest, done, written0, destPtr0, size) && written0 < size
      requires |run| == 1 && run[0] == b && AllReadable(vol, run)
      requires destPtr0 + |Content(vol, run)| <= |mem| && after == done + run
      modifies this
      ensures |mem| == |old(mem)| && Landed(old(mem), mem, destPtr0, Content(vol, run))
      ensures Copied(dest, after, written, destPtr, size)
    {
      hide Content, AllReadable, At;
      SingleBlock(vol, run, b);
      ReadBlockToHigh(b, destPtr0);
      Extend(vol, old(mem), mem, dest, done, run);
      written := written0 + Min(vol.blockSize, size - written0);
      destPtr := destPtr0 + vol.blockSize;
    }

    /** Read the first-level table through the indirect buffer and copy it aside. */
    method LoadL1(root: nat)
      requires ValidVolume(vol) && root != 0 && Readable(vol, root) && HIGH <= |mem|
      modifies this
      ensures |mem| == |old(mem)| && mem[HIGH..] == old(mem)[HIGH..]
      ensures Holds(mem, L1_BUF, Table(vol, root))
    {
      var bytes := BlockBytes(vol, root);
      var _ := ReadBlockLow(root, INDIRECT_BUF);
      ghost var m := mem;
      mem := Poke(mem, L1_BUF, mem[INDIRECT_BUF..INDIRECT_BUF + vol.blockSize]);
      PokeKeeps(old(mem), INDIRECT_BUF, bytes, HIGH, |mem|);
      PokeKeeps(m, L1_BUF, bytes, HIGH, |mem|);
      assert mem[HIGH..|mem|] == old(mem)[HIGH..|mem|];
      TableHolds(vol, root, mem, L1_BUF);
    }

    /** One second-level table: read it into the indirect buffer, then copy its blocks. */
    method CopySubtree(l2: nat, size: nat, written0: nat, destPtr0: nat,
                       ghost dest: nat, ghost l1: seq<nat>, ghost done: seq<nat>)
      returns (written: nat, destPtr: nat)
      requires ValidVolume(vol) && l2 != 0 && Readable(vol, l2)
      requires AllReadable(vol, Reads(Table(vol, l2), Left(vol, size, done), false))
      requires 4 * |l1| <= TABLES_END - L1_BUF && Holds(mem, L1_BUF, l1) && HIGH <= |mem|
      requires Copied(dest, done, written0, destPtr0, size)
      requires destPtr0 + |Content(vol, Reads(Table(vol, l2), Left(vol, size, done), false))| <= |mem|
      modifies this
      ensures |mem| == |old(mem)| && Holds(mem, L1_BUF, l1)
      ensures Copied(dest, done + Reads(Table(vol, l2), Left(vol, size, done), false), written, destPtr, size)
    {
      hide Content, AllReadable, Reads, At, Table, Ru32, BlockCount;
      LoadTable(l2, dest, done);
      L1Kept(old(mem), mem, l1);
      ghost var m := mem;
      written, destPtr := CopyLeaf(vol.blockSize / 4, size, written0, destPtr0, dest, Table(vol, l2), done);
      L1Kept(m, mem, l1);
    }

    /** Read a table into the indirect buffer. */
    method LoadTable(block: nat, ghost dest: nat, ghost done: seq<nat>)
      requires ValidVolume(vol) && block != 0 && Readable(vol, block) && HIGH <= |mem|
      requires AllReadable(vol, done) && At(vol, mem, dest, done)
      modifies this
      ensures |mem| == |old(mem)| && At(vol, mem, dest, done) && Holds(mem, INDIRECT_BUF, Table(vol, block))
      ensures mem[L1_BUF..TABLES_END] == old(mem)[L1_BUF..TABLES_END]
    {
      hide Table, At;
      ghost var bytes := BlockBytes(vol, block);
      var _ := ReadBlockLow(block, INDIRECT_BUF);
      AtKept(vol, old(mem), INDIRECT_BUF, bytes, dest, done);
      PokeKeeps(old(mem), INDIRECT_BUF, bytes, L1_BUF, TABLES_END);
      TableHolds(vol, block, mem, INDIRECT_BUF);
    }

    /** The double-indirect tree: the first-level table is copied aside, because the leaf tables go
        through the indirect buffer. */
    method CopyDouble(root: nat, size: nat, written0: nat, destPtr0: nat,
                      ghost dest: nat, ghost done: seq<nat>)
      returns (written: nat, destPtr: nat)
      requires ValidVolume(vol) && root != 0 && Readable(vol, root) && HIGH <= |mem|
      requires AllReadable(vol, TablesBehind(vol, Table(vol, root), Left(vol, size, done)))
      requires AllReadable(vol, Behind(vol, Table(vol, root), Left(vol, size, done)))
      requires Copied(dest, done, written0, destPtr0, size)
      requires destPtr0 + |Content(vol, Behind(vol, Table(vol, root), Left(vol, size, done)))| <= |mem|
      modifies this
      ensures |mem| == |old(mem)|
      ensures Copied(dest, done + Behind(vol, Table(vol, root), Left(vol, size, done)), written, destPtr, size)
    {
      hide Content, At, Ru32, Table, Behind, TablesBehind, AllReadable, Reads, BlockCount, Descending;
      ghost var l1, need := Table(vol, root), Left(vol, size, done);
      LoadL1(root);
      AtUnmoved(vol, old(mem), mem, dest, done);
      written, destPtr := written0, destPtr0;
      ghost var more := [];
      assert done + [] == done;
      DescendingStarts(vol, l1, need);
      var entries := vol.blockSize / 4;
      var i := 0;
      while i < entries && written < size
        invariant i <= entries && Descending(vol, l1, i, need, more)
        invariant |mem| == |old(mem)| && Holds(mem, L1_BUF, l1)
        invariant Copied(dest, done + more, written, destPtr, size)
      {
        var l2 := Ru32(mem, L1_BUF + 4 * i);
        if l2 == 0 {
          DescendingEnds(vol, l1, i, need, more);
          return;
        }
        StillWanted(vol, done + more, written, size);
        DescendingNext(vol, l1, i, need, more, done);
        written, destPtr := CopySubtree(l2, size, written, destPtr, dest, l1, done + more);
        ghost var leaf := Reads(Table(vol, l2), Left(vol, size, done + more), false);
        Reassociate(done, more, leaf);
        more := more + leaf;
        i := i + 1;
      }
      StillWanted(vol, done + more, written, size);
      DescendingEnds(vol, l1, i, need, more);
    }

    method CopyDirect(ino: Inode, dest: nat) returns (written: nat, destPtr: nat)
      requires ValidVolume(vol) && ValidInode(ino) && AllReadable(vol, Direct(vol, ino))
      requires HIGH <= dest && dest + |Content(vol, Direct(vol, ino))| <= |mem|
      modifies this
      ensures |mem| == |old(mem)| && Copied(dest, Direct(vol, ino), written, destPtr, ino.size)
    {
      written, destPtr := CopyTable(ino.blocks[..12], false, 12, ino.size, 0, dest, dest, ino.blocks[..12], []);
      assert [] + Direct(vol, ino) == Direct(vol, ino);
    }

    method CopySingle(ino: Inode, written0: nat, destPtr0: nat, ghost dest: nat)
      returns (written: nat, destPtr: nat)
      requires ValidVolume(vol) && ValidInode(ino) && Sound(vol, ino) && HIGH <= |mem|
      requires Copied(dest, Direct(vol, ino), written0, destPtr0, ino.size)
      requires AllReadable(vol, Low(vol, ino)) && dest + |Content(vol, Low(vol, ino))| <= |mem|
      modifies this
      ensures |mem| == |old(mem)| && Copied(dest, Low(vol, ino), written, destPtr, ino.size)
    {
      hide Content, Direct, Sound, Reads, BlockCount, At, Ru32, Table;
      SoundParts(vol, ino);
      ghost var done := Direct(vol, ino);
      written, destPtr := written0, destPtr0;
      StillWanted(vol, done, written, ino.size);
      if written < ino.size && ino.blocks[12] != 0 {
        LoadTable(ino.blocks[12], dest, done);
        written, destPtr := CopyTable([], true, vol.blockSize / 4, ino.size, written, destPtr,
                                      dest, Table(vol, ino.blocks[12]), done);
      } else {
        assert Low(vol, ino) == done;
      }
    }

    method CopyRest(ino: Inode, written0: nat, destPtr0: nat, ghost dest: nat)
      returns (written: nat, ghost destPtr: nat)
      requires ValidVolume(vol) && ValidInode(ino) && Sound(vol, ino) && HIGH <= |mem|
      requires Copied(dest, Low(vol, ino), written0, destPtr0, ino.size)
      requires dest + |Content(vol, Visited(vol, ino))| <= |mem|
      modifies this
      ensures |mem| == |old(mem)| && Copied(dest, Visited(vol, ino), written, destPtr, ino.size)
    {
      hide Content, Low, Sound, Reads, BlockCount, At, Ru32, Table, Behind, TablesBehind;
      SoundParts(vol, ino);
      written, destPtr := written0, destPtr0;
      StillWanted(vol, Low(vol, ino), written, ino.size);
      if written < ino.size && ino.blocks[13] != 0 {
        var p;
        written, p := CopyDouble(ino.blocks[13], ino.size, written, destPtr0, dest, Low(vol, ino));
        destPtr := p;
      } else {
        assert Visited(vol, ino) == Low(vol, ino);
      }
    }

    /** The whole copy: it returns as much of the size as the visited blocks cover, and leaves exactly
        their content at `dest`. */
    method CopyFileBlocks(ino: Inode, dest: nat) returns (written: nat)
      requires ValidVolume(vol) && ValidInode(ino) && Sound(vol, ino)
      requires HIGH <= dest && dest + |Content(vol, Visited(vol, ino))| <= |mem|
      modifies this
      ensures |mem| == |old(mem)|
      ensures written == Min(ino.size, |Content(vol, Visited(vol, ino))|)
      ensures var all := Content(vol, Visited(vol, ino)); mem[dest..dest + |all|] == all
    {
      hide Content, AllReadable, Single, Double, Direct, Sound, Visited, Low;
      SoundParts(vol, ino);
      var destPtr;
      ghost var end;
      written, destPtr := CopyDirect(ino, dest);
      written, destPtr := CopySingle(ino, written, destPtr, dest);
      written, end := CopyRest(ino, written, destPtr, dest);
    }
  }

  lemma {:induction false} RunAt(t: seq<nat>, i: nat, count: nat, run: seq<nat>)
    requires i < |t| && count == Group(t[i..], true) && run == t[i..i + count]
    ensures forall k | 0 <= k < count :: run[k] == t[i] + k
  {
    hide RunFrom, Group;
    assert forall k | 0 <= k < count :: run[k] == t[i..][k];
  }

  lemma {:induction false} Reassociate(a: seq<nat>, b: seq<nat>, c: seq<nat>)
    ensures (a + b) + c == a + (b + c)
  {
  }

  lemma {:induction false} L1Kept(m0: seq<byte>, m1: seq<byte>, l1: seq<nat>)
    requires |m1| == |m0| && 4 * |l1| <= TABLES_END - L1_BUF <= |m0| && TABLES_END <= |m0|
    requires m1[L1_BUF..TABLES_END] == m0[L1_BUF..TABLES_END] && Holds(m0, L1_BUF, l1)
    ensures Holds(m1, L1_BUF, l1)
  {
    forall i | 0 <= i < |l1|
      ensures Ru32(m1, L1_BUF + 4 * i) == l1[i]
    {
      SubSlice(m0, L1_BUF, TABLES_END, 4 * i, 4 * i + 4);
      SubSlice(m1, L1_BUF, TABLES_END, 4 * i, 4 * i + 4);
      SameWord(m1, L1_BUF + 4 * i, m0, L1_BUF + 4 * i);
    }
  }

  lemma {:induction false} AtUnmoved(v: Volume, m0: seq<byte>, m1: seq<byte>, dest: nat, done: seq<nat>)
    requires ValidVolume(v) && AllReadable(v, done) && At(v, m0, dest, done)
    requires |m0| == |m1| && HIGH <= |m0| && m1[HIGH..] == m0[HIGH..]
    ensures At(v, m1, dest, done)
  {
    var n := |Content(v, done)|;
    SubSlice(m0, HIGH, |m0|, dest - HIGH, dest - HIGH + n);
    SubSlice(m1, HIGH, |m1|, dest - HIGH, dest - HIGH + n);
  }

  /** Of the walk through a table of tables the first `i` are behind, and gave the blocks `more`. */
  ghost predicate Descending(v: Volume, l1: seq<nat>, i: nat, need: nat, more: seq<nat>)
    requires ValidVolume(v)
  {
    && i <= |l1| && Behind(v, l1, need) == more + Behind(v, l1[i..], Minus(need, |more|))
    && AllReadable(v, TablesBehind(v, l1[i..], Minus(need, |more|)))
  }

  lemma {:induction false} DescendingStarts(v: Volume, l1: seq<nat>, need: nat)
    requires ValidVolume(v) && AllReadable(v, TablesBehind(v, l1, need))
    ensures Descending(v, l1, 0, need, [])
  {
    assert l1[0..] == l1 && [] + Behind(v, l1, need) == Behind(v, l1, need);
  }

  lemma {:induction false} DescendingNext(v: Volume, l1: seq<nat>, i: nat, need: nat, more: seq<nat>, done: seq<nat>)
    requires ValidVolume(v) && Descending(v, l1, i, need, more) && i < |l1| && l1[i] != 0 && |more| < need
    requires AllReadable(v, Behind(v, l1, need)) && AllReadable(v, done)
    ensures Readable(v, l1[i]) && AllReadable(v, done + more)
    ensures var leaf := Reads(Table(v, l1[i]), need - |more|, false);
            && Descending(v, l1, i + 1, need, more + leaf) && AllReadable(v, leaf)
            && |Content(v, done + more)| + |Content(v, leaf)| <= |Content(v, done)| + |Content(v, Behind(v, l1, need))|
  {
    hide Content, Reads, Table, BlockLimit;
    var rest, left := l1[i..], need - |more|;
    var tables := TablesBehind(v, rest, left);
    assert tables[0] == l1[i] && rest[1..] == l1[i + 1..];
    assert AllReadable(v, tables[1..]);
    var leaf := Reads(Table(v, l1[i]), left, false);
    var after := Behind(v, l1[i + 1..], Minus(left, |leaf|));
    Reassociate(more, leaf, after);
    ContentParts(v, done, more, leaf, after);
  }

  lemma {:induction false} DescendingEnds(v: Volume, l1: seq<nat>, i: nat, need: nat, more: seq<nat>)
    requires ValidVolume(v) && Descending(v, l1, i, need, more)
    requires i == |l1| || l1[i] == 0 || need <= |more|
    ensures Behind(v, l1, need) == more
  {
  }

  lemma {:induction false} ContentParts(v: Volume, done: seq<nat>, a: seq<nat>, b: seq<nat>, c: seq<nat>)
    requires ValidVolume(v) && AllReadable(v, done) && AllReadable(v, (a + b) + c)
    ensures AllReadable(v, done + a) && AllReadable(v, b)
    ensures |Content(v, done + a)| + |Content(v, b)| <= |Content(v, done)| + |Content(v, (a + b) + c)|
  {
    var whole := (a + b) + c;
    assert forall k | 0 <= k < |a| :: a[k] == whole[k];
    assert forall k | 0 <= k < |b| :: b[k] == whole[|a| + k];
    assert forall k | 0 <= k < |c| :: c[k] == whole[|a| + |b| + k];
    ContentConcat(v, a, b);
    ContentConcat(v, a + b, c);
    ContentConcat(v, done, a);
  }

  lemma {:induction false} SingleBlock(v: Volume, run: seq<nat>, b: nat)
    requires ValidVolume(v) && |run| == 1 && run[0] == b && AllReadable(v, run)
    ensures Readable(v, b) && Content(v, run) == BlockBytes(v, b)
  {
    assert run[..0] == [] && [] + BlockBytes(v, b) == BlockBytes(v, b);
  }

  lemma {:induction false} TablesKept(m0: seq<byte>, m1: seq<byte>)
    requires |m0| == |m1| >= TABLES_END && m1[INDIRECT_BUF..TABLES_END] == m0[INDIRECT_BUF..TABLES_END]
    ensures m1[L1_BUF..TABLES_END] == m0[L1_BUF..TABLES_END]
  {
    var o := L1_BUF - INDIRECT_BUF;
    SubSlice(m0, INDIRECT_BUF, TABLES_END, o, TABLES_END - INDIRECT_BUF);
    SubSlice(m1, INDIRECT_BUF, TABLES_END, o, TABLES_END - INDIRECT_BUF);
  }
}
