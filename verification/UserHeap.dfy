/** The userspace heap: freed blocks go on an intrusive singly linked list, whose nodes live inside
    the free memory itself, and are handed out again with splitting; growth comes from the kernel.

    Memory is one byte function, and a list node is what its eight bytes decode to: a write that
    touches them changes the list. SYS_MALLOC bumps `heapNext` through a
    capped arena of zeroed pages, SYS_FREE does nothing. Layouts obey the contract of the language:
    a power-of-two alignment and a size below 2^31, so no machine addition here can wrap. */
module UserHeap {

  import opened Common
  import opened Alignment

  const HEADER_SIZE: nat := 8
  const HEADER_ALIGN: nat := 4

  datatype Block = Block(addr: nat, size: nat)
  datatype Layout = Layout(size: nat, align: nat)

  predicate ValidLayout(l: Layout) { PowerOfTwo(l.align) && l.align <= 0x8000_0000 && l.size < 0x8000_0000 }

  /** The size and alignment actually used: room for a list node, and whole alignment units. */
  function Adjust(l: Layout): Layout
    requires ValidLayout(l)
  {
    PowerPositive(l.align);
    var align := Max(l.align, HEADER_ALIGN);
    Layout(AlignUp(Max(l.size, HEADER_SIZE), align), align)
  }

  /** The least multiple of the alignment that holds the request and a list node. */
  lemma {:induction false} AdjustFits(l: Layout)
    requires ValidLayout(l)
    ensures var a := Adjust(l);
            && l.size <= a.size && HEADER_SIZE <= a.size < Max(l.size, HEADER_SIZE) + a.align
            && a.size % a.align == 0 && a.size % 4 == 0
            && l.align <= a.align && a.align % 4 == 0 && a.align > 0
  {
    PowerPositive(l.align);
    var a := Adjust(l);
    AlignUpIsLeast(Max(l.size, HEADER_SIZE), a.align);
    MultipleOfFour(a.size, a.align);
  }

  // ---- Blocks ----

  predicate Apart(a: Block, b: Block) { a.addr + a.size <= b.addr || b.addr + b.size <= a.addr }

  predicate AllApart(s: seq<Block>) {
    forall i, j | 0 <= i < j < |s| :: Apart(s[i], s[j])
  }

  predicate ApartFrom(b: Block, s: seq<Block>) {
    forall i | 0 <= i < |s| :: Apart(b, s[i])
  }

  predicate Separate(live: seq<Block>, free: seq<Block>) {
    AllApart(live) && AllApart(free) && forall i | 0 <= i < |live| :: ApartFrom(live[i], free)
  }

  function Total(s: seq<Block>): nat {
    if s == [] then 0 else s[0].size + Total(s[1..])
  }

  function Remove(s: seq<Block>, i: nat): seq<Block>
    requires i < |s|
  {
    s[..i] + s[i + 1..]
  }

  lemma {:induction false} TotalRemove(s: seq<Block>, i: nat)
    requires i < |s|
    ensures Total(s) == Total(Remove(s, i)) + s[i].size
  {
    if i == 0 {
      assert Remove(s, 0) == s[1..];
    } else {
      TotalRemove(s[1..], i - 1);
      assert Remove(s, i)[0] == s[0] && Remove(s, i)[1..] == Remove(s[1..], i - 1);
    }
  }

  lemma {:induction false} TotalAppend(s: seq<Block>, b: Block)
    ensures Total(s + [b]) == Total(s) + b.size
  {
    if s != [] {
      assert (s + [b])[1..] == s[1..] + [b];
      TotalAppend(s[1..], b);
    } else {
      assert [b][1..] == [];
    }
  }

  // ---- Memory contents ----

  type Memory = nat -> byte

  const WORD: nat := 0x1_0000_0000

  function Zeroed(mem: Memory, p: nat, n: nat): Memory {
    (a: nat) => if p <= a < p + n then 0 else mem(a)
  }

  /** The little-endian word at `a`. */
  function WordAt(mem: Memory, a: nat): nat {
    mem(a) + 0x100 * mem(a + 1) + 0x1_0000 * mem(a + 2) + 0x100_0000 * mem(a + 3)
  }

  function WithWord(mem: Memory, p: nat, w: nat): Memory {
    (a: nat) =>
      if a == p then w % 0x100
      else if a == p + 1 then w / 0x100 % 0x100
      else if a == p + 2 then w / 0x100 / 0x100 % 0x100
      else if a == p + 3 then w / 0x100 / 0x100 / 0x100 % 0x100
      else mem(a)
  }

  lemma {:induction false} WordStored(mem: Memory, p: nat, w: nat)
    requires w < WORD
    ensures WordAt(WithWord(mem, p, w), p) == w
  {
    var n := WithWord(mem, p, w);
    var w1 := w / 0x100;
    var w2 := w1 / 0x100;
    var w3 := w2 / 0x100;
    assert n(p) == w % 0x100 && n(p + 1) == w1 % 0x100 && n(p + 2) == w2 % 0x100 && n(p + 3) == w3 % 0x100;
    assert w == 0x100 * w1 + n(p) && w1 == 0x100 * w2 + n(p + 1) && w2 == 0x100 * w3 + n(p + 2) && w3 < 0x100;
  }

  ghost predicate SameOn(m: Memory, n: Memory, b: Block) {
    forall a: nat | b.addr <= a < b.addr + b.size :: m(a) == n(a)
  }

  ghost predicate SameOnAll(m: Memory, n: Memory, s: seq<Block>) {
    forall i | 0 <= i < |s| :: SameOn(m, n, s[i])
  }

  ghost predicate SameOutside(m: Memory, n: Memory, b: Block) {
    forall a: nat | a < b.addr || b.addr + b.size <= a :: m(a) == n(a)
  }

  lemma {:induction false} UntouchedBlocks(m: Memory, n: Memory, b: Block, s: seq<Block>)
    requires SameOutside(m, n, b) && ApartFrom(b, s)
    ensures SameOnAll(m, n, s)
  {
    forall i | 0 <= i < |s|
      ensures SameOn(m, n, s[i])
    {
      assert Apart(b, s[i]);
    }
  }

  // ---- The list in memory ----

  function AddrAt(free: seq<Block>, i: nat): nat {
    if i < |free| then free[i].addr else 0
  }

  /** The bytes of block `i` hold its size and the address of block `i + 1`, or null. */
  predicate Node(mem: Memory, free: seq<Block>, i: nat)
    requires i < |free|
  {
    WordAt(mem, free[i].addr) == free[i].size && WordAt(mem, free[i].addr + 4) == AddrAt(free, i + 1)
  }

  predicate Linked(head: nat, mem: Memory, free: seq<Block>) {
    head == AddrAt(free, 0) && forall i | 0 <= i < |free| :: Node(mem, free, i)
  }

  predicate Plausible(b: Block, top: nat) {
    0 < b.addr && b.addr % 4 == 0 && HEADER_SIZE <= b.size && b.addr + b.size <= top
  }

  predicate AllPlausible(s: seq<Block>, top: nat) {
    forall i | 0 <= i < |s| :: Plausible(s[i], top)
  }

  lemma {:induction false} ListEnds(free: seq<Block>, k: nat, top: nat)
    requires AllPlausible(free, top) && k <= |free| && AddrAt(free, k) == 0
    ensures k == |free|
  {
  }

  lemma {:induction false} NodeKept(m: Memory, n: Memory, free: seq<Block>, i: nat)
    requires i < |free| && free[i].size >= HEADER_SIZE && Node(m, free, i) && SameOn(m, n, free[i])
    ensures Node(n, free, i)
  {
  }

  /** A write that misses every free block leaves the list alone. */
  lemma {:induction false} WriteElsewhere(head: nat, m: Memory, n: Memory, free: seq<Block>, b: Block, top: nat)
    requires Linked(head, m, free) && AllPlausible(free, top) && SameOutside(m, n, b) && ApartFrom(b, free)
    ensures Linked(head, n, free)
  {
    hide Node;
    UntouchedBlocks(m, n, b, free);
    forall i | 0 <= i < |free|
      ensures Node(n, free, i)
    {
      assert Plausible(free[i], top);
      NodeKept(m, n, free, i);
    }
  }

  /** The memory after the two stores that make a block the head of the list. */
  function Pushed(mem: Memory, b: Block, head: nat): Memory {
    WithWord(WithWord(mem, b.addr, b.size), b.addr + 4, head)
  }

  lemma {:induction false} PushedNode(mem: Memory, b: Block, head: nat)
    requires b.size >= HEADER_SIZE && b.size < WORD && head < WORD
    ensures SameOutside(mem, Pushed(mem, b, head), b)
    ensures WordAt(Pushed(mem, b, head), b.addr) == b.size && WordAt(Pushed(mem, b, head), b.addr + 4) == head
  {
    WordStored(mem, b.addr, b.size);
    WordStored(WithWord(mem, b.addr, b.size), b.addr + 4, head);
  }

  lemma {:induction false} AddressFits(free: seq<Block>, i: nat, top: nat)
    requires AllPlausible(free, top) && top <= WORD
    ensures AddrAt(free, i) < WORD
  {
  }

  /** Pushing a block that overlaps no other free block. */
  lemma {:induction false} PushNode(head: nat, mem: Memory, free: seq<Block>, b: Block, top: nat)
    requires Linked(head, mem, free) && AllPlausible(free, top) && top <= WORD
    requires Plausible(b, top) && ApartFrom(b, free)
    ensures Linked(b.addr, Pushed(mem, b, head), [b] + free) && SameOutside(mem, Pushed(mem, b, head), b)
  {
    hide WordAt, Pushed;
    var n, free' := Pushed(mem, b, head), [b] + free;
    AddressFits(free, 0, top);
    PushedNode(mem, b, head);
    UntouchedBlocks(mem, n, b, free);
    forall i | 0 <= i < |free'|
      ensures Node(n, free', i)
    {
      if i > 0 {
        assert Node(mem, free, i - 1) && Plausible(free[i - 1], top);
        NodeKept(mem, n, free, i - 1);
        assert free'[i] == free[i - 1] && AddrAt(free', i + 1) == AddrAt(free, i);
      }
    }
  }

  /** Unlinking node `k`: the head, or the second word of its predecessor, is set to what follows. */
  lemma {:induction false} UnlinkNode(head: nat, mem: Memory, free: seq<Block>, k: nat, top: nat)
    requires Linked(head, mem, free) && AllPlausible(free, top) && top <= WORD && AllApart(free) && k < |free|
    ensures k == 0 ==> Linked(AddrAt(free, 1), mem, Remove(free, 0))
    ensures k > 0 ==>
              var n := WithWord(mem, free[k - 1].addr + 4, AddrAt(free, k + 1));
              Linked(head, n, Remove(free, k)) && SameOutside(mem, n, free[k - 1])
  {
    hide WordAt;
    var free' := Remove(free, k);
    if k == 0 {
      forall i | 0 <= i < |free'|
        ensures Node(mem, free', i)
      {
        assert Node(mem, free, i + 1);
      }
    } else {
      var n := WithWord(mem, free[k - 1].addr + 4, AddrAt(free, k + 1));
      assert Plausible(free[k - 1], top);
      forall i | 0 <= i < |free'|
        ensures Node(n, free', i)
      {
        UnlinkedNode(mem, free, k, top, i);
      }
    }
  }

  lemma {:induction false} UnlinkedNode(mem: Memory, free: seq<Block>, k: nat, top: nat, i: nat)
    requires AllPlausible(free, top) && top <= WORD && AllApart(free) && 0 < k < |free| && i < |free| - 1
    requires forall j | 0 <= j < |free| :: Node(mem, free, j)
    ensures Node(WithWord(mem, free[k - 1].addr + 4, AddrAt(free, k + 1)), Remove(free, k), i)
  {
    hide WordAt;
    var free', p := Remove(free, k), free[k - 1];
    var n := WithWord(mem, p.addr + 4, AddrAt(free, k + 1));
    var j := if i < k then i else i + 1;
    assert Node(mem, free, j) && free'[i] == free[j] && Plausible(free[j], top) && Plausible(p, top);
    if j == k - 1 {
      AddressFits(free, k + 1, top);
      WordStored(mem, p.addr + 4, AddrAt(free, k + 1));
      FirstWordKept(mem, n, p);
    } else {
      assert j < k - 1 ==> Apart(free[j], p);
      assert j > k - 1 ==> Apart(p, free[j]);
      assert SameOn(mem, n, free[j]);
      NodeKept(mem, n, free, j);
    }
  }

  lemma {:induction false} FirstWordKept(m: Memory, n: Memory, b: Block)
    requires SameOn(m, n, Block(b.addr, 4))
    ensures WordAt(m, b.addr) == WordAt(n, b.addr)
  {
  }

  // ---- Keeping blocks apart ----

  lemma {:induction false} RemoveKeeps(s: seq<Block>, k: nat, top: nat)
    requires k < |s| && AllPlausible(s, top) && AllApart(s)
    ensures AllPlausible(Remove(s, k), top) && AllApart(Remove(s, k)) && ApartFrom(s[k], Remove(s, k))
    ensures forall b | ApartFrom(b, s) :: ApartFrom(b, Remove(s, k))
  {
    var t := Remove(s, k);
    forall i | 0 <= i < |t|
      ensures t[i] == s[if i < k then i else i + 1] && Apart(s[k], t[i]) && Plausible(t[i], top)
    {
    }
  }

  lemma {:induction false} PushKeeps(live: seq<Block>, free: seq<Block>, b: Block)
    requires Separate(live, free) && ApartFrom(b, live) && ApartFrom(b, free)
    ensures Separate(live, [b] + free)
  {
    var t := [b] + free;
    forall i, j | 0 <= i < j < |t|
      ensures Apart(t[i], t[j])
    {
      assert t[j] == free[j - 1] && (i > 0 ==> t[i] == free[i - 1]);
    }
    forall i | 0 <= i < |live|
      ensures ApartFrom(live[i], t)
    {
      assert ApartFrom(live[i], free) && Apart(b, live[i]);
    }
  }

  lemma {:induction false} AppendKeeps(live: seq<Block>, free: seq<Block>, b: Block)
    requires Separate(live, free) && ApartFrom(b, live) && ApartFrom(b, free)
    ensures Separate(live + [b], free)
  {
    var t := live + [b];
    forall i, j | 0 <= i < j < |t|
      ensures Apart(t[i], t[j])
    {
      assert t[i] == live[i] && Apart(b, live[i]);
    }
  }

  lemma {:induction false} UnlinkKeeps(live: seq<Block>, free: seq<Block>, k: nat, top: nat)
    requires Separate(live, free) && AllPlausible(free, top) && k < |free|
    ensures Separate(live, Remove(free, k)) && ApartFrom(free[k], live) && ApartFrom(free[k], Remove(free, k))
  {
    RemoveKeeps(free, k, top);
    forall i | 0 <= i < |live|
      ensures ApartFrom(live[i], Remove(free, k)) && Apart(free[k], live[i])
    {
      assert ApartFrom(live[i], free);
    }
  }

  lemma {:induction false} RetireKeeps(live: seq<Block>, free: seq<Block>, k: nat, top: nat)
    requires Separate(live, free) && AllPlausible(live, top) && k < |live|
    ensures Separate(Remove(live, k), free) && ApartFrom(live[k], Remove(live, k)) && ApartFrom(live[k], free)
  {
    RemoveKeeps(live, k, top);
    var t := Remove(live, k);
    forall i | 0 <= i < |t|
      ensures ApartFrom(t[i], free)
    {
      assert t[i] == live[if i < k then i else i + 1];
    }
  }

  lemma {:induction false} PartApart(b: Block, part: Block, s: seq<Block>)
    requires ApartFrom(b, s) && b.addr <= part.addr && part.addr + part.size <= b.addr + b.size
    ensures ApartFrom(part, s)
  {
  }

  // ---- The kernel's bump ----

  const HEAP_BASE: nat := 0x4000_0000
  const HEAP_LIMIT: nat := HEAP_BASE + 128 * 1024 * 1024

  /** The kernel rounds the alignment into 8..4096. */
  function KernelAlign(align: nat): nat { Min(Max(align, 8), 4096) }

  /** Where SYS_MALLOC places a non-empty request, or 0. */
  function Bump(heapNext: nat, size: nat, align: nat): (start: nat)
    ensures start != 0 ==> heapNext <= start && start + size <= HEAP_LIMIT
  {
    var from := Max(heapNext, HEAP_BASE);
    AlignUpIsLeast(from, KernelAlign(align));
    var start := AlignUp(from, KernelAlign(align));
    if start + size > HEAP_LIMIT then 0 else start
  }

  lemma {:induction false} KernelAlignFits(align: nat)
    requires PowerOfTwo(align)
    ensures PowerOfTwo(KernelAlign(align)) && KernelAlign(align) % 4 == 0
    ensures align <= 4096 ==> KernelAlign(align) % align == 0
  {
    assert PowerOfTwo(8);
    assert PowerOfTwo(512) && PowerOfTwo(4096);
    PowerPositive(align);
    PowerPositive(KernelAlign(align));
    if align <= 4096 {
      PowersNest(align, KernelAlign(align));
    }
  }

  lemma {:induction false} BumpIsRounded(heapNext: nat, size: nat, align: nat)
    ensures Bump(heapNext, size, align) in {0, AlignUp(Max(heapNext, HEAP_BASE), KernelAlign(align))}
  {
  }

  /** A grant is aligned as asked up to a page. */
  lemma {:induction false} GrantIsAligned(heapNext: nat, size: nat, align: nat)
    requires PowerOfTwo(align)
    ensures align <= 4096 ==> Bump(heapNext, size, align) % align == 0
    ensures Bump(heapNext, size, align) % 4 == 0
  {
    hide *;
    PowerPositive(align);
    KernelAlignFits(align);
    BumpIsRounded(heapNext, size, align);
    AlignedTo(Max(heapNext, HEAP_BASE), KernelAlign(align), align);
  }

  lemma {:induction false} BaseIsPower()
    ensures PowerOfTwo(HEAP_BASE)
  {
    assert PowerOfTwo(512) && PowerOfTwo(4096) && PowerOfTwo(64);
    PowerProduct(4096, 4096);
    PowerProduct(4096 * 4096, 64);
  }

  /** Beyond a page the arena does not honour the alignment: while what was granted ends within the
      arena's first page, the next grant of any size that fits is misaligned, whatever the larger
      alignment is. */
  lemma {:induction false} LargeAlignmentIsNotHonoured(heapNext: nat, size: nat, align: nat)
    requires PowerOfTwo(align) && align > 4096 && HEAP_BASE < heapNext <= HEAP_BASE + 4096
    requires 0 < size <= HEAP_LIMIT - HEAP_BASE - 4096
    ensures var start := Bump(heapNext, size, align); start != 0 && start % align != 0
  {
    hide PowerOfTwo;
    assert AlignUp(heapNext, 4096) == HEAP_BASE + 4096;
    BaseIsPower();
    BasePlusPage(HEAP_BASE, 4096, align);
  }

  // ---- The allocator ----

  predicate Fits(b: Block, size: nat, align: nat) {
    align > 0 && b.size >= size && b.addr % align == 0
  }

  /** What is left of a free block after `size` bytes are cut from its front, if worth keeping. */
  function Leftover(b: Block, size: nat): seq<Block>
    requires size <= b.size
  {
    if b.size - size > HEADER_SIZE * 2 then [Block(b.addr + size, b.size - size)] else []
  }

  /** What a split leaves that is too small to keep. */
  function Waste(b: Block, size: nat): (w: nat)
    requires size <= b.size
    ensures w <= HEADER_SIZE * 2 && size + Total(Leftover(b, size)) + w == b.size
  {
    assert Leftover(b, size) != [] ==> Leftover(b, size)[1..] == [];
    if b.size - size > HEADER_SIZE * 2 then 0 else b.size - size
  }

  /** The first block of the list that fits, or the list's length. */
  function FirstFit(free: seq<Block>, size: nat, align: nat): (k: nat)
    ensures k <= |free| && (k < |free| ==> Fits(free[k], size, align))
    ensures forall i | 0 <= i < k :: !Fits(free[i], size, align)
  {
    if free == [] || Fits(free[0], size, align) then 0 else 1 + FirstFit(free[1..], size, align)
  }

  lemma {:induction false} FirstFitIs(free: seq<Block>, size: nat, align: nat, k: nat)
    requires k <= |free| && (k < |free| ==> Fits(free[k], size, align))
    requires forall i | 0 <= i < k :: !Fits(free[i], size, align)
    ensures FirstFit(free, size, align) == k
  {
  }

  /** The allocator's books: the list, the bytes given up, and the kernel's side. */
  datatype Books = Books(free: seq<Block>, discarded: nat, heapNext: nat, obtained: nat)

  /** The books after an allocation, and its result: first fit, else the kernel, else nothing. */
  function Allocated(b: Books, a: Layout): (Books, nat) {
    var k := FirstFit(b.free, a.size, a.align);
    if k < |b.free| then
      (b.(free := Leftover(b.free[k], a.size) + Remove(b.free, k),
          discarded := b.discarded + Waste(b.free[k], a.size)),
       b.free[k].addr)
    else
      var p := Bump(b.heapNext, a.size, a.align);
      (if p == 0 then b else b.(heapNext := p + a.size, obtained := b.obtained + a.size), p)
  }

  /** The bytes by which a block got smaller. */
  function Shed(before: nat, after: nat): nat { if after <= before then before - after else 0 }

  function Freed(b: Books, block: Block): Books { b.(free := [block] + b.free) }

  /** What is left of a block is kept if it is more than 16 bytes, right behind the part handed out, and given
      up otherwise. */
  lemma {:induction false} LeftoverIs(b: Block, size: nat)
    requires size <= b.size
    ensures b.size > size + 16 ==> Leftover(b, size) == [Block(b.addr + size, b.size - size)] && Waste(b, size) == 0
    ensures b.size <= size + 16 ==> Leftover(b, size) == [] && Waste(b, size) == b.size - size
  {
  }

  /** A block that is returned is the next one handed out for the same layout, and the books are as before. */
  lemma {:induction false} FreedIsReused(b: Books, a: Layout, p: nat)
    requires a.align > 0 && p % a.align == 0
    ensures Allocated(Freed(b, Block(p, a.size)), a) == (b, p)
  {
    var block := Block(p, a.size);
    var list := [block] + b.free;
    FirstFitIs(list, a.size, a.align, 0);
    assert Remove(list, 0) == b.free && [] + b.free == b.free;
  }

  /** The list comes first, in order; the kernel is asked only if no block of it fits, and then it is not
      touched. */
  lemma {:induction false} ListComesFirst(b: Books, a: Layout)
    requires a.align > 0
    ensures var (c, p) := Allocated(b, a);
            if exists i | 0 <= i < |b.free| :: b.free[i].size >= a.size && b.free[i].addr % a.align == 0
            then c.heapNext == b.heapNext && c.obtained == b.obtained
            else c.free == b.free && c.discarded == b.discarded && p == Bump(b.heapNext, a.size, a.align)
  {
    var k := FirstFit(b.free, a.size, a.align);
    if i :| 0 <= i < |b.free| && b.free[i].size >= a.size && b.free[i].addr % a.align == 0 {
      assert Fits(b.free[i], a.size, a.align);
    }
    assert k < |b.free| ==> Fits(b.free[k], a.size, a.align);
  }

  /** The kernel's arena is the 128 MiB from 0x40000000 on, and a grant is the first place in it, behind all
      others, with the alignment rounded into 8 to 4096. */
  lemma {:induction false} GrantIsNext(heapNext: nat, size: nat, align: nat, at: nat)
    requires var from := if heapNext < 0x4000_0000 then 0x4000_0000 else heapNext;
             var k := if align < 8 then 8 else if align > 4096 then 4096 else align;
             at % k == 0 && from <= at < from + k
    ensures Bump(heapNext, size, align) == if at + size <= 0x4800_0000 then at else 0
  {
    hide AlignUp;
    var from, k := Max(heapNext, HEAP_BASE), KernelAlign(align);
    AlignUpIsLeast(from, k);
    OneMultiple(at, AlignUp(from, k), k, from);
  }

  class Heap {
    var head: nat
    var mem: Memory
    var heapNext: nat
    ghost var free: seq<Block>     // the list, in order
    ghost var live: seq<Block>     // handed out and not returned
    ghost var discarded: nat       // bytes nobody owns any more
    ghost var obtained: nat        // bytes the kernel ever granted

    ghost predicate Shape()
      reads this
    {
      && heapNext <= HEAP_LIMIT && Linked(head, mem, free)
      && AllPlausible(free, heapNext) && AllPlausible(live, heapNext)
      && Separate(live, free) && forall a: nat | heapNext <= a :: mem(a) == 0
    }

    /** The list is intact, no two blocks overlap, and every byte granted is accounted for. */
    ghost predicate Valid()
      reads this
    {
      Shape() && Total(live) + Total(free) + discarded == obtained
    }

    ghost function Book(): Books
      reads this
    {
      Books(free, discarded, heapNext, obtained)
    }

    constructor ()
      ensures Valid() && live == [] && free == [] && discarded == 0
    {
      head, mem, heapNext := 0, (a: nat) => 0, 0;
      free, live, discarded, obtained := [], [], 0, 0;
    }

    /** Push a block that nobody owns. */
    method FreeListAdd(ptr: nat, size: nat)
      requires Shape()
      requires ptr != 0 && size >= HEADER_SIZE ==>
                 var b := Block(ptr, size); Plausible(b, heapNext) && ApartFrom(b, live) && ApartFrom(b, free)
      modifies `head, `mem, `free
      ensures Shape()
      ensures ptr == 0 || size < HEADER_SIZE ==> unchanged(this)
      ensures ptr != 0 && size >= HEADER_SIZE ==>
                free == [Block(ptr, size)] + old(free) && SameOutside(old(mem), mem, Block(ptr, size))
    {
      hide WordAt, WithWord, Linked;
      if ptr == 0 || size < HEADER_SIZE {
        return;
      }
      ghost var b := Block(ptr, size);
      PushNode(head, mem, free, b, heapNext);
      PushKeeps(live, free, b);
      mem := WithWord(mem, ptr, size);
      mem := WithWord(mem, ptr + 4, head);
      head := ptr;
      free := [b] + free;
    }

    /** Take node `k` out of the list, given its predecessor. */
    method Unlink(prev: nat, cur: nat, ghost k: nat)
      requires Shape() && k < |free| && cur == AddrAt(free, k)
      requires prev == if k == 0 then 0 else free[k - 1].addr
      modifies `head, `mem, `free
      ensures Shape() && free == Remove(old(free), k)
      ensures ApartFrom(old(free)[k], free) && ApartFrom(old(free)[k], live)
      ensures SameOnAll(old(mem), mem, live)
    {
      hide WithWord, WordAt, Remove;
      assert Node(mem, free, k);
      UnlinkNode(head, mem, free, k, heapNext);
      UnlinkKeeps(live, free, k, heapNext);
      RemoveKeeps(free, k, heapNext);
      var next := WordAt(mem, cur + 4);
      if prev == 0 {
        head := next;
      } else {
        assert Plausible(free[k - 1], heapNext);
        UnlinkKeeps(live, free, k - 1, heapNext);
        mem := WithWord(mem, prev + 4, next);
        UntouchedBlocks(old(mem), mem, free[k - 1], live);
      }
      free := Remove(free, k);
    }

    /** First fit with splitting; the block comes back zeroed and owned by nobody else. */
    method FreeListTake(size: nat, align: nat) returns (p: nat, ghost k: nat)
      requires Valid() && size >= HEADER_SIZE && size % 4 == 0 && align > 0
      modifies `head, `mem, `free, `discarded
      ensures Shape()
      ensures p == 0 <==> forall i | 0 <= i < |old(free)| :: !Fits(old(free)[i], size, align)
      ensures p == 0 ==> unchanged(this)
      ensures p != 0 ==>
                && k < |old(free)| && Fits(old(free)[k], size, align) && p == old(free)[k].addr
                && (forall i | 0 <= i < k :: !Fits(old(free)[i], size, align))
                && free == Leftover(old(free)[k], size) + Remove(old(free), k)
                && discarded == old(discarded) + Waste(old(free)[k], size)
                && Total(live) + size + Total(free) + discarded == obtained
                && ApartFrom(Block(p, size), free) && ApartFrom(Block(p, size), live)
                && (forall a: nat | p <= a < p + size :: mem(a) == 0)
                && SameOnAll(old(mem), mem, live)
    {
      var prev, cur := 0, head;
      k := 0;
      while cur != 0
        invariant unchanged(this) && k <= |free| && cur == AddrAt(free, k)
        invariant prev == if k == 0 then 0 else free[k - 1].addr
        invariant forall i | 0 <= i < k :: !Fits(free[i], size, align)
        decreases |free| - k
      {
        assert Node(mem, free, k) && Plausible(free[k], heapNext);
        var blockSize := WordAt(mem, cur);
        if blockSize >= size && cur % align == 0 {
          Take(prev, cur, blockSize, size, k);
          p := cur;
          return;
        }
        prev := cur;
        cur := WordAt(mem, cur + 4);
        k := k + 1;
      }
      ListEnds(free, k, heapNext);
      p := 0;
    }

    method Take(prev: nat, cur: nat, blockSize: nat, size: nat, ghost k: nat)
      requires Valid() && size >= HEADER_SIZE && size % 4 == 0
      requires k < |free| && free[k] == Block(cur, blockSize) && blockSize >= size
      requires prev == if k == 0 then 0 else free[k - 1].addr
      modifies `head, `mem, `free, `discarded
      ensures Shape()
      ensures free == Leftover(old(free)[k], size) + Remove(old(free), k)
      ensures discarded == old(discarded) + Waste(old(free)[k], size)
      ensures Total(live) + size + Total(free) + discarded == obtained
      ensures ApartFrom(Block(cur, size), free) && ApartFrom(Block(cur, size), live)
      ensures forall a: nat | cur <= a < cur + size :: mem(a) == 0
      ensures SameOnAll(old(mem), mem, live)
    {
      hide Linked, Separate, AllApart, Remove;
      ghost var b, rest := free[k], Remove(free, k);
      assert Plausible(b, heapNext);
      TotalRemove(free, k);
      Unlink(prev, cur, k);
      var remaining := blockSize - size;
      ghost var cut := Block(cur, size);
      PartApart(b, cut, live);
      KeepLeftover(cur, size, remaining, b);
      Clear(cur, size);
    }

    method KeepLeftover(cur: nat, size: nat, remaining: nat, ghost b: Block)
      requires Shape() && Plausible(b, heapNext) && ApartFrom(b, live) && ApartFrom(b, free)
      requires b == Block(cur, size + remaining) && size % 4 == 0
      modifies `head, `mem, `free, `discarded
      ensures Shape() && free == Leftover(b, size) + old(free) && discarded == old(discarded) + Waste(b, size)
      ensures Total(free) + discarded == Total(old(free)) + old(discarded) + remaining
      ensures SameOnAll(old(mem), mem, live) && ApartFrom(Block(cur, size), free)
    {
      hide Linked, Separate, AllApart;
      if remaining > HEADER_SIZE * 2 {
        ghost var left := Block(cur + size, remaining);
        PartApart(b, left, live);
        PartApart(b, left, free);
        FreeListAdd(cur + size, remaining);
        UntouchedBlocks(old(mem), mem, left, live);
        assert free[0] == left && free[1..] == old(free);
      } else {
        discarded := discarded + remaining;
        assert free == [] + free;
      }
    }

    method Clear(p: nat, size: nat)
      requires Shape() && ApartFrom(Block(p, size), free) && ApartFrom(Block(p, size), live)
      modifies `mem
      ensures Shape() && SameOnAll(old(mem), mem, live)
      ensures forall a: nat | p <= a < p + size :: mem(a) == 0
    {
      mem := Zeroed(mem, p, size);
      WriteElsewhere(head, old(mem), mem, free, Block(p, size), heapNext);
      UntouchedBlocks(old(mem), mem, Block(p, size), live);
    }

    /** The kernel's answer when the list has nothing. */
    method KernelMalloc(size: nat, align: nat) returns (p: nat)
      requires Valid() && size >= HEADER_SIZE && PowerOfTwo(align)
      modifies `heapNext, `live, `obtained
      ensures Valid() && p == Bump(old(heapNext), size, align)
      ensures p == 0 ==> unchanged(this)
      ensures p != 0 ==>
                && live == old(live) + [Block(p, size)] && (forall a: nat | p <= a :: mem(a) == 0)
                && heapNext == p + size && obtained == old(obtained) + size
    {
      hide PowerOfTwo, Linked, Remove, AllApart, Adjust;
      p := Bump(heapNext, size, align);
      GrantIsAligned(heapNext, size, align);
      if p != 0 {
        ghost var b := Block(p, size);
        assert ApartFrom(b, live) && ApartFrom(b, free);
        AppendKeeps(live, free, b);
        TotalAppend(live, b);
        heapNext := p + size;
        live := live + [b];
        obtained := obtained + size;
      }
    }

    /** A new block is zeroed, big enough, aligned up to a page, and disjoint from every other
        block; nothing another owner holds changes. It comes from the first free block that fits, of
        which at most sixteen bytes are given up, or from the kernel; it fails only if no free block
        fits and the arena is full, and then changes nothing. */
    method Alloc(l: Layout) returns (p: nat)
      requires Valid() && ValidLayout(l)
      modifies this
      ensures Valid() && (Book(), p) == Allocated(old(Book()), Adjust(l))
      ensures p == 0 ==> unchanged(this)
      ensures p != 0 ==> live == old(live) + [Block(p, Adjust(l).size)] && l.size <= Adjust(l).size
      ensures p != 0 && l.align <= 4096 ==> p % l.align == 0
      ensures p != 0 ==> forall a: nat | p <= a < p + l.size :: mem(a) == 0
      ensures SameOnAll(old(mem), mem, old(live))
    {
      hide PowerOfTwo, Linked, AlignUp, Bump, FirstFit, Leftover, Remove, Separate, AllPlausible, Waste;
      PowerPositive(l.align);
      AdjustFits(l);
      var a := Adjust(l);
      p := TakeFor(l, a);
      if p == 0 {
        p := GrantFor(l, a);
        Untouched(mem, 0, 0, old(live));
      }
    }

    /** The block for a layout, from the list. */
    method TakeFor(l: Layout, a: Layout) returns (p: nat)
      requires Valid() && ValidLayout(l) && a == Adjust(l)
      modifies `head, `mem, `free, `live, `discarded
      ensures Valid() && (p == 0 <==> FirstFit(old(free), a.size, a.align) == |old(free)|)
      ensures p == 0 ==> unchanged(this)
      ensures p != 0 ==>
                var k := FirstFit(old(free), a.size, a.align);
                && p == old(free)[k].addr && live == old(live) + [Block(p, a.size)]
                && free == Leftover(old(free)[k], a.size) + Remove(old(free), k)
                && discarded == old(discarded) + Waste(old(free)[k], a.size)
                && (forall x: nat | p <= x < p + a.size :: mem(x) == 0)
      ensures l.align > 0 && (p != 0 ==> p % l.align == 0)
      ensures SameOnAll(old(mem), mem, old(live))
    {
      hide PowerOfTwo, Linked, AlignUp, FirstFit, Leftover, Remove, Waste;
      AdjustFits(l);
      AdjustedPower(l);
      ghost var k;
      p, k := FreeListTake(a.size, a.align);
      FirstFitIs(old(free), a.size, a.align, if p != 0 then k else |old(free)|);
      if p != 0 {
        ghost var b := Block(p, a.size);
        AppendKeeps(live, free, b);
        TotalAppend(live, b);
        live := live + [b];
        MultipleOfMultiple(p, a.align, l.align);
      }
    }

    /** The same, from the kernel. */
    method GrantFor(l: Layout, a: Layout) returns (p: nat)
      requires Valid() && ValidLayout(l) && a == Adjust(l)
      modifies `heapNext, `live, `obtained
      ensures Valid() && p == Bump(old(heapNext), a.size, a.align)
      ensures p == 0 ==> unchanged(this)
      ensures p != 0 ==>
                && live == old(live) + [Block(p, a.size)] && (forall x: nat | p <= x :: mem(x) == 0)
                && heapNext == p + a.size && obtained == old(obtained) + a.size
      ensures l.align > 0 && (p != 0 && l.align <= 4096 ==> p % l.align == 0)
    {
      hide PowerOfTwo, Linked, AlignUp, Bump, Separate, AllPlausible;
      AdjustFits(l);
      AdjustedPower(l);
      GrantIsAligned(heapNext, a.size, a.align);
      p := KernelMalloc(a.size, a.align);
      if p != 0 && l.align <= 4096 {
        MultipleOfMultiple(p, a.align, l.align);
      }
    }

    /** A returned block heads the list; the remaining owners keep their bytes. */
    method Dealloc(ptr: nat, l: Layout, ghost i: nat)
      requires Valid() && ValidLayout(l)
      requires ptr != 0 ==> i < |live| && live[i] == Block(ptr, Adjust(l).size)
      modifies this
      ensures Valid()
      ensures ptr == 0 ==> unchanged(this)
      ensures ptr != 0 ==> live == Remove(old(live), i) && Book() == Freed(old(Book()), Block(ptr, Adjust(l).size))
      ensures SameOnAll(old(mem), mem, live)
    {
      hide PowerOfTwo, Linked, Remove, AllApart, Adjust;
      if ptr == 0 {
        return;
      }
      AdjustFits(l);
      ghost var b := live[i];
      assert Plausible(b, heapNext);
      RetireKeeps(live, free, i, heapNext);
      RemoveKeeps(live, i, heapNext);
      TotalRemove(live, i);
      live := Remove(live, i);
      FreeListAdd(ptr, Adjust(l).size);
      UntouchedBlocks(old(mem), mem, b, live);
    }

    /** Bytes written inside an owned block, by its owner or by `Realloc`, disturb nothing else. */
    method Store(p: nat, n: nat, bytes: Memory, ghost i: nat)
      requires Valid() && i < |live| && live[i].addr <= p && p + n <= live[i].addr + live[i].size
      modifies `mem
      ensures Valid() && SameOnAll(old(mem), mem, Remove(live, i))
      ensures forall a: nat :: mem(a) == if p <= a < p + n then bytes(a) else old(mem)(a)
    {
      hide Separate, AllApart, Remove;
      ghost var b := live[i];
      assert Plausible(b, heapNext);
      RetireKeeps(live, free, i, heapNext);
      PartApart(b, Block(p, n), free);
      var was := mem;
      mem := (a: nat) => if p <= a < p + n then bytes(a) else was(a);
      WriteElsewhere(head, was, mem, free, Block(p, n), heapNext);
      UntouchedBlocks(was, mem, b, Remove(live, i));
    }

    /** Shrink an owned block where it stands: the tail is given up for good. */
    ghost method Shrink(i: nat, size: nat)
      requires Valid() && i < |live| && HEADER_SIZE <= size <= live[i].size
      modifies `live, `discarded
      ensures Valid() && live == old(live)[i := Block(old(live)[i].addr, size)]
      ensures discarded == old(discarded) + Shed(old(live)[i].size, size)
    {
      hide Linked, Remove;
      var b := live[i];
      var t := live[i := Block(b.addr, size)];
      TotalRemove(live, i);
      TotalRemove(t, i);
      assert Remove(t, i) == Remove(live, i) by {
        SameRest(live, i, t[i]);
      }
      ShrinkKeeps(live, free, i, t[i]);
      assert Plausible(b, heapNext);
      discarded := discarded + (b.size - size);
      live := t;
    }

    method Grow(ptr: nat, l: Layout, newSize: nat, ghost i: nat) returns (q: nat)
      requires Valid() && ValidLayout(l) && Adjust(l).size < newSize < 0x8000_0000
      requires ptr != 0 && i < |live| && live[i] == Block(ptr, Adjust(l).size)
      modifies this
      ensures Valid()
      ensures q == Allocated(old(Book()), Adjust(Layout(newSize, l.align))).1
      ensures q == 0 ==> unchanged(this)
      ensures q != 0 && l.align <= 4096 ==> q % l.align == 0
      ensures q != 0 ==>
                && Book() == Freed(Allocated(old(Book()), Adjust(Layout(newSize, l.align))).0, Block(ptr, Adjust(l).size))
                && q != ptr && newSize <= Adjust(Layout(newSize, l.align)).size
                && live == Remove(old(live), i) + [Block(q, Adjust(Layout(newSize, l.align)).size)]
                && Carried(old(mem), ptr, mem, q, Adjust(l).size)
                && SameOnAll(old(mem), mem, Remove(old(live), i))
    {
      hide PowerOfTwo, Linked, Separate, AllPlausible, Remove, AlignUp;
      AdjustFits(l);
      AdjustedPower(l);
      var was := Adjust(l);
      var newLayout := Layout(newSize, was.align);
      AdjustAgain(l, newSize);
      AdjustFits(newLayout);
      q := Alloc(newLayout);
      if q == 0 {
        return;
      }
      if l.align <= 4096 {
        MultipleOfMultiple(q, was.align, l.align);
      }
      ghost var middle := mem;
      ghost var block := Block(q, Adjust(newLayout).size);
      assert live[i] == old(live)[i] && live[|old(live)|] == block;
      Distinct(live, free, i);
      MoveInto(ptr, l, q, block.size, i, old(live));
      Moved(old(mem), middle, mem, old(live), i, block, ptr, was.size);
    }

    /** Copies an owned block into the newest one and frees it. */
    method MoveInto(ptr: nat, l: Layout, q: nat, ghost size: nat, ghost i: nat, ghost before: seq<Block>)
      requires Valid() && ValidLayout(l) && ptr != 0 && i < |before| && live == before + [Block(q, size)]
      requires before[i] == Block(ptr, Adjust(l).size) && Adjust(l).size <= size
      modifies this
      ensures Valid() && live == Remove(before, i) + [Block(q, size)]
      ensures Book() == Freed(old(Book()), before[i])
      ensures Carried(old(mem), ptr, mem, q, Adjust(l).size)
      ensures SameOnAll(old(mem), mem, Remove(before, i))
    {
      hide PowerOfTwo, Linked, Separate, AllPlausible, Remove, AlignUp, Adjust, Total, SameOnAll, Carried;
      var n := Adjust(l).size;
      ghost var b := Block(q, size);
      assert live[i] == before[i] && live[|before|] == b;
      var m1 := mem;
      Store(q, n, (a: nat) => if a >= q then m1(ptr + (a - q)) else 0, |live| - 1);
      ghost var m2 := mem;
      RemoveLast(before, b, i);
      CopiedIn(m1, ptr, m2, q, n);
      Dealloc(ptr, l, i);
      Untouched(m1, 0, 0, before);
      Unharmed(m1, m1, m2, mem, before, i, b);
      StillCarried(m1, ptr, m2, mem, b, n, live);
    }

    /** A block keeps its bytes when it is resized; on failure everything stays as it was. */
    method Realloc(ptr: nat, l: Layout, newSize: nat, ghost i: nat) returns (q: nat)
      requires Valid() && ValidLayout(l) && newSize < 0x8000_0000
      requires ptr != 0 ==> i < |live| && live[i] == Block(ptr, Adjust(l).size)
      modifies this
      ensures Valid()
      ensures ptr == 0 ==> (Book(), q) == Allocated(old(Book()), Adjust(Layout(Max(newSize, 1), l.align)))
      ensures ptr == 0 && q != 0 ==> live == old(live) + [Block(q, Adjust(Layout(Max(newSize, 1), l.align)).size)]
      ensures ptr != 0 && newSize == 0 ==>
                q == 0 && live == Remove(old(live), i) && Book() == Freed(old(Book()), Block(ptr, Adjust(l).size))
      ensures q != 0 && q != ptr && l.align <= 4096 ==> q % l.align == 0
      ensures ptr != 0 && newSize > 0 && q != 0 ==>
                var b := Block(q, Adjust(Layout(newSize, l.align)).size);
                && newSize <= b.size && (q == ptr <==> newSize <= Adjust(l).size)
                && live == (if q == ptr then old(live)[i := b] else Remove(old(live), i) + [b])
                && Book() == (if q == ptr then old(Book()).(discarded := old(discarded) + Shed(Adjust(l).size, b.size))
                              else Freed(Allocated(old(Book()), Adjust(Layout(newSize, l.align))).0, Block(ptr, Adjust(l).size)))
                && Carried(old(mem), ptr, mem, q, Min(l.size, newSize))
      ensures newSize > 0 && q == 0 ==> unchanged(this)
      ensures ptr == 0 ==> SameOnAll(old(mem), mem, old(live))
      ensures ptr != 0 ==> SameOnAll(old(mem), mem, Remove(old(live), i))
    {
      hide PowerOfTwo, Linked, Separate, AllPlausible, Remove, AlignUp, Allocated, Freed, Carried, SameOnAll, Total;
      if ptr == 0 {
        q := Alloc(Layout(Max(newSize, 1), l.align));
        return;
      }
      if newSize == 0 {
        Dealloc(ptr, l, i);
        return 0;
      }
      AdjustFits(l);
      ShrunkFits(l, newSize);
      if newSize <= Adjust(l).size {
        Shrink(i, Adjust(Layout(newSize, l.align)).size);
        Untouched(mem, ptr, Min(l.size, newSize), Remove(old(live), i));
        return ptr;
      }
      q := Grow(ptr, l, newSize, i);
      Untouched(mem, 0, 0, Remove(old(live), i));
      CarriedLess(old(mem), ptr, mem, q, Adjust(l).size, Min(l.size, newSize));
    }
  }

  ghost predicate Carried(m: Memory, src: nat, n: Memory, dst: nat, size: nat) {
    forall a: nat | dst <= a < dst + size :: n(a) == m(src + (a - dst))
  }

  lemma {:induction false} CarriedLess(m: Memory, src: nat, n: Memory, dst: nat, size: nat, less: nat)
    requires less <= size
    ensures Carried(m, src, n, dst, size) ==> Carried(m, src, n, dst, less)
  {
  }

  lemma {:induction false} CopiedIn(m: Memory, src: nat, n: Memory, dst: nat, size: nat)
    requires forall a: nat | dst <= a < dst + size :: n(a) == m(src + (a - dst))
    ensures Carried(m, src, n, dst, size)
  {
  }

  lemma {:induction false} StillCarried(m: Memory, src: nat, n: Memory, n': Memory, b: Block, size: nat, s: seq<Block>)
    requires Carried(m, src, n, b.addr, size) && size <= b.size && SameOnAll(n, n', s)
    requires s != [] && s[|s| - 1] == b
    ensures Carried(m, src, n', b.addr, size)
  {
    assert SameOn(n, n', b);
  }

  lemma {:induction false} Untouched(m: Memory, p: nat, n: nat, s: seq<Block>)
    ensures Carried(m, p, m, p, n) && SameOnAll(m, m, s)
  {
  }

  /** A size that fits the adjusted block adjusts to no more than the block. */
  lemma {:induction false} ShrunkFits(l: Layout, newSize: nat)
    requires ValidLayout(l) && newSize < 0x8000_0000
    ensures ValidLayout(Layout(newSize, l.align))
    ensures var b := Adjust(Layout(newSize, l.align)).size;
            newSize <= b && HEADER_SIZE <= b && (newSize <= Adjust(l).size ==> b <= Adjust(l).size)
  {
    AdjustFits(l);
    AdjustFits(Layout(newSize, l.align));
    if newSize <= Adjust(l).size {
      AlignUpBelow(Max(newSize, HEADER_SIZE), Adjust(l).size, Adjust(l).align);
    }
  }

  /** Rounding the alignment up first makes no difference to the adjusted layout. */
  lemma {:induction false} AdjustAgain(l: Layout, newSize: nat)
    requires ValidLayout(l) && newSize < 0x8000_0000
    ensures ValidLayout(Layout(newSize, Adjust(l).align)) && ValidLayout(Layout(newSize, l.align))
    ensures Adjust(Layout(newSize, Adjust(l).align)) == Adjust(Layout(newSize, l.align))
  {
    AdjustedPower(l);
  }

  lemma {:induction false} Distinct(live: seq<Block>, free: seq<Block>, i: nat)
    requires Separate(live, free) && i < |live| - 1 && live[i].size > 0 && live[|live| - 1].size > 0
    ensures live[i].addr != live[|live| - 1].addr
  {
    assert Apart(live[i], live[|live| - 1]);
  }

  lemma {:induction false} RemoveLast(s: seq<Block>, b: Block, i: nat)
    requires i < |s|
    ensures Remove(s + [b], i) == Remove(s, i) + [b] && Remove(s + [b], |s|) == s
  {
  }

  /** What was in the old block before the allocation is in the new one at the end. */
  lemma {:induction false} Moved(m0: Memory, m1: Memory, m2: Memory, s: seq<Block>, i: nat, b: Block, ptr: nat, size: nat)
    requires i < |s| && s[i] == Block(ptr, size)
    requires SameOnAll(m0, m1, s) && SameOnAll(m1, m2, Remove(s, i)) && Carried(m1, ptr, m2, b.addr, size)
    ensures Carried(m0, ptr, m2, b.addr, size) && SameOnAll(m0, m2, Remove(s, i))
  {
    assert SameOn(m0, m1, s[i]);
    var t := Remove(s, i);
    forall j | 0 <= j < |t|
      ensures SameOn(m0, m2, t[j])
    {
      var k := if j < i then j else j + 1;
      assert t[j] == s[k] && SameOn(m0, m1, s[k]);
    }
  }

  lemma {:induction false} Unharmed(m0: Memory, m1: Memory, m2: Memory, m3: Memory, s: seq<Block>, i: nat, b: Block)
    requires i < |s|
    requires SameOnAll(m0, m1, s) && SameOnAll(m1, m2, s) && SameOnAll(m2, m3, Remove(s, i) + [b])
    ensures SameOnAll(m0, m3, Remove(s, i))
  {
    var t := Remove(s, i);
    forall j | 0 <= j < |t|
      ensures SameOn(m0, m3, t[j])
    {
      var k := if j < i then j else j + 1;
      assert t[j] == s[k] == (t + [b])[j];
      assert SameOn(m0, m1, s[k]) && SameOn(m1, m2, s[k]) && SameOn(m2, m3, (t + [b])[j]);
    }
  }

  lemma {:induction false} SameRest(s: seq<Block>, i: nat, b: Block)
    requires i < |s|
    ensures Remove(s[i := b], i) == Remove(s, i)
  {
  }

  lemma {:induction false} ShrinkKeeps(live: seq<Block>, free: seq<Block>, i: nat, b: Block)
    requires Separate(live, free) && i < |live| && b.addr == live[i].addr && b.size <= live[i].size
    ensures Separate(live[i := b], free)
  {
    var t := live[i := b];
    forall j, k | 0 <= j < k < |t|
      ensures Apart(t[j], t[k])
    {
      assert Apart(live[j], live[k]);
    }
    forall j | 0 <= j < |t|
      ensures ApartFrom(t[j], free)
    {
      assert ApartFrom(live[j], free);
    }
  }

  lemma {:induction false} AdjustedPower(l: Layout)
    requires ValidLayout(l)
    ensures PowerOfTwo(Adjust(l).align) && l.align > 0 && Adjust(l).align % l.align == 0
    ensures l.align <= 4096 ==> Adjust(l).align <= 4096
  {
    PowerPositive(l.align);
    assert PowerOfTwo(4);
    PowersNest(l.align, Adjust(l).align);
  }
}