/** The RAM block list: best-fit placement, the list order and the most-recently-used lookup (exec.c). */
module RamBlocks {
  import opened Common
  import opened Arithmetic

  const RAM_ADDR_MAX: int := TWO_64 - 1

  /** A RAMBlock: `length` bytes of RAM at `offset` in the ram_addr_t space. */
  datatype Block = Block(offset: nat, length: nat) {
    function End(): nat { offset + length }

    predicate Has(addr: int) { offset <= addr < End() }

    /** Unsigned 64-bit subtraction and comparison, as the lookups write it. */
    predicate Wraps(addr: nat) { (addr - offset) % TWO_64 < length }

    predicate Ok() { 0 < length && End() <= RAM_ADDR_MAX }

    predicate OnPages() { offset % TARGET_PAGE_SIZE == 0 == length % TARGET_PAGE_SIZE }
  }

  predicate Apart(x: Block, y: Block)
  {
    x.End() <= y.offset || y.End() <= x.offset
  }

  /** No two blocks share an address. */
  predicate Disjoint(blocks: seq<Block>)
  {
    && (forall i :: 0 <= i < |blocks| ==> blocks[i].Ok())
    && (forall i, j :: 0 <= i < j < |blocks| ==> Apart(blocks[i], blocks[j]))
  }

  /** From biggest to smallest. */
  predicate BiggestFirst(blocks: seq<Block>)
  {
    forall i, j :: 0 <= i < j < |blocks| ==> blocks[i].length >= blocks[j].length
  }

  predicate Aligned(blocks: seq<Block>)
  {
    forall i :: 0 <= i < |blocks| ==> blocks[i].OnPages()
  }

  predicate ApartFromAll(blocks: seq<Block>, b: Block)
  {
    forall i :: 0 <= i < |blocks| ==> Apart(blocks[i], b)
  }

  // ---------------------------------------------------------------- gaps

  /** The first block start at or after `end` among the first `n` blocks, or the last address. */
  function NextStart(blocks: seq<Block>, end: nat): (next: int)
    requires end <= RAM_ADDR_MAX
    ensures end <= next <= RAM_ADDR_MAX
    decreases |blocks|
  {
    if blocks == [] then RAM_ADDR_MAX
    else
      var next, b := NextStart(blocks[..|blocks| - 1], end), blocks[|blocks| - 1];
      if b.offset >= end then Min(next, b.offset) else next
  }

  lemma {:induction false} NextStartIs(blocks: seq<Block>, end: nat)
    requires end <= RAM_ADDR_MAX
    ensures var next := NextStart(blocks, end);
            && (forall i :: 0 <= i < |blocks| && blocks[i].offset >= end ==> next <= blocks[i].offset)
            && (next == RAM_ADDR_MAX || exists i :: 0 <= i < |blocks| && blocks[i].offset == next)
    decreases |blocks|
  {
    if blocks != [] {
      var front, b := blocks[..|blocks| - 1], blocks[|blocks| - 1];
      NextStartIs(front, end);
      var next := NextStart(front, end);
      forall i | 0 <= i < |blocks| && blocks[i].offset >= end ensures NextStart(blocks, end) <= blocks[i].offset {
        if i < |front| { assert front[i] == blocks[i]; }
      }
      if next != RAM_ADDR_MAX {
        var i :| 0 <= i < |front| && front[i].offset == next;
        assert blocks[i].offset == next;
      }
    }
  }

  /** The free space right after block `i`. */
  function Gap(blocks: seq<Block>, i: nat): nat
    requires Disjoint(blocks) && i < |blocks|
  {
    NextStart(blocks, blocks[i].End()) - blocks[i].End()
  }

  /** Nothing lies in the gap after a block. */
  lemma GapIsFree(blocks: seq<Block>, i: nat, size: nat)
    requires Disjoint(blocks) && i < |blocks| && 0 < size <= Gap(blocks, i)
    ensures ApartFromAll(blocks, Block(blocks[i].End(), size))
    ensures Block(blocks[i].End(), size).Ok()
  {
    hide NextStart;
    var end := blocks[i].End();
    NextStartIs(blocks, end);
    forall k | 0 <= k < |blocks| ensures Apart(blocks[k], Block(end, size)) {
      if blocks[k].offset < end && k != i {
        assert Apart(blocks[i], blocks[k]) || Apart(blocks[k], blocks[i]);
      }
    }
  }

  /** The gap is all there is: no longer run from the block's end is free. */
  lemma GapIsAll(blocks: seq<Block>, i: nat, size: nat)
    requires Disjoint(blocks) && i < |blocks| && 0 < size
    ensures size <= Gap(blocks, i) <==>
            Block(blocks[i].End(), size).Ok() && ApartFromAll(blocks, Block(blocks[i].End(), size))
  {
    var end := blocks[i].End();
    if size <= Gap(blocks, i) {
      GapIsFree(blocks, i, size);
    } else {
      NextStartIs(blocks, end);
      hide NextStart;
      var next := NextStart(blocks, end);
      if k :| 0 <= k < |blocks| && blocks[k].offset == next {
        assert blocks[k].Ok();
        assert !Apart(blocks[k], Block(end, size));
      }
    }
  }

  /** Block `i` is the best place among the first `n`: the smallest sufficient gap, and the first such. */
  predicate Best(blocks: seq<Block>, n: nat, size: nat, i: nat)
    requires Disjoint(blocks) && n <= |blocks|
  {
    && i < n && Gap(blocks, i) >= size
    && (forall k :: 0 <= k < n && Gap(blocks, k) >= size ==> Gap(blocks, i) <= Gap(blocks, k))
    && (forall k :: 0 <= k < i && Gap(blocks, k) >= size ==> Gap(blocks, i) < Gap(blocks, k))
  }

  predicate NoGap(blocks: seq<Block>, n: nat, size: nat)
    requires Disjoint(blocks) && n <= |blocks|
  {
    forall k :: 0 <= k < n ==> Gap(blocks, k) < size
  }

  /** The inner loop of find_ram_offset. */
  method FindNext(blocks: seq<Block>, end: nat) returns (next: nat)
    requires end <= RAM_ADDR_MAX
    ensures next == NextStart(blocks, end)
  {
    next := RAM_ADDR_MAX;
    for i := 0 to |blocks|
      invariant next == NextStart(blocks[..i], end)
    {
      assert blocks[..i + 1][..i] == blocks[..i];
      if blocks[i].offset >= end {
        next := Min(next, blocks[i].offset);
      }
    }
    assert blocks[..|blocks|] == blocks;
  }

  /** find_ram_offset; None stands for its abort. */
  method FindRamOffset(blocks: seq<Block>, size: nat) returns (r: Option<nat>, ghost at: nat)
    requires Disjoint(blocks) && size != 0
    ensures blocks == [] ==> r == Some(0)
    ensures blocks != [] ==> (r.None? <==> NoGap(blocks, |blocks|, size))
    ensures blocks != [] && r.Some? ==> Best(blocks, |blocks|, size, at) && r == Some(blocks[at].End())
  {
    hide NextStart;
    at := 0;
    if blocks == [] {
      return Some(0), 0;
    }
    var offset, mingap := RAM_ADDR_MAX, RAM_ADDR_MAX;
    for i := 0 to |blocks|
      invariant offset == RAM_ADDR_MAX ==> mingap == RAM_ADDR_MAX && NoGap(blocks, i, size)
      invariant offset != RAM_ADDR_MAX ==>
                  Best(blocks, i, size, at) && offset == blocks[at].End() && mingap == Gap(blocks, at)
    {
      var end := blocks[i].End();
      var next := FindNext(blocks, end);
      assert Gap(blocks, i) == next - end;
      if next - end >= size && next - end < mingap {
        offset := end;
        mingap := next - end;
        at := i;
      }
    }
    r := if offset == RAM_ADDR_MAX then None else Some(offset);
  }

  /**
    When the search succeeds: exactly when some free run of the size lies above some block. Space below the lowest
    block is never handed out.
   */
  lemma FindSucceeds(blocks: seq<Block>, size: nat)
    requires Disjoint(blocks) && size != 0
    ensures !NoGap(blocks, |blocks|, size) <==>
            exists a: nat, i: nat :: FreeAbove(blocks, Block(a, size), i)
  {
    if !NoGap(blocks, |blocks|, size) {
      var k :| 0 <= k < |blocks| && Gap(blocks, k) >= size;
      GapIsFree(blocks, k, size);
      assert FreeAbove(blocks, Block(blocks[k].End(), size), k);
    }
    if exists a: nat, i: nat :: FreeAbove(blocks, Block(a, size), i) {
      var a: nat, i: nat :| FreeAbove(blocks, Block(a, size), i);
      var k := Highest(blocks, a, i);
      FitsAbove(blocks, Block(a, size), k);
    }
  }

  /** A run of `size` from the end of block `i` on is free. */
  predicate FreeAfter(blocks: seq<Block>, i: nat, size: nat)
    requires i < |blocks|
  {
    Block(blocks[i].End(), size).Ok() && ApartFromAll(blocks, Block(blocks[i].End(), size))
  }

  /**
    Best fit, in terms of what is free: behind the chosen block `g` bytes are free and no more; behind every other block
    where the size fits, `g` bytes are free as well; and behind an earlier one of these, more.
   */
  lemma BestFit(blocks: seq<Block>, size: nat, at: nat) returns (g: nat)
    requires Disjoint(blocks) && 0 < size && Best(blocks, |blocks|, size, at)
    ensures size <= g && FreeAfter(blocks, at, g) && !FreeAfter(blocks, at, g + 1)
    ensures forall k :: 0 <= k < |blocks| && FreeAfter(blocks, k, size) ==> FreeAfter(blocks, k, g)
    ensures forall k :: 0 <= k < at && FreeAfter(blocks, k, size) ==> FreeAfter(blocks, k, g + 1)
  {
    g := Gap(blocks, at);
    hide Gap;
    GapIsAll(blocks, at, g);
    GapIsAll(blocks, at, g + 1);
    forall k | 0 <= k < |blocks| && FreeAfter(blocks, k, size)
      ensures FreeAfter(blocks, k, g) && (k < at ==> FreeAfter(blocks, k, g + 1))
    {
      GapIsAll(blocks, k, size);
      GapIsAll(blocks, k, g);
      GapIsAll(blocks, k, g + 1);
    }
  }

  /** A free run with block `i` below it. */
  predicate FreeAbove(blocks: seq<Block>, run: Block, i: nat)
  {
    run.Ok() && ApartFromAll(blocks, run) && i < |blocks| && blocks[i].End() <= run.offset
  }

  /** The block that reaches highest below `a`. */
  lemma Highest(blocks: seq<Block>, a: nat, i: nat) returns (k: nat)
    requires i < |blocks| && blocks[i].End() <= a
    ensures k < |blocks| && blocks[k].End() <= a
    ensures forall j :: 0 <= j < |blocks| && blocks[j].End() <= a ==> blocks[j].End() <= blocks[k].End()
  {
    k := i;
    for n := 0 to |blocks|
      invariant k < |blocks| && blocks[k].End() <= a
      invariant forall j :: 0 <= j < n && blocks[j].End() <= a ==> blocks[j].End() <= blocks[k].End()
    {
      if blocks[n].End() <= a && blocks[n].End() > blocks[k].End() { k := n; }
    }
  }

  lemma FitsAbove(blocks: seq<Block>, run: Block, k: nat)
    requires Disjoint(blocks) && FreeAbove(blocks, run, k)
    requires forall j :: 0 <= j < |blocks| && blocks[j].End() <= run.offset ==> blocks[j].End() <= blocks[k].End()
    ensures Gap(blocks, k) >= run.length
  {
    hide NextStart;
    var end := blocks[k].End();
    var next := NextStart(blocks, end);
    NextStartIs(blocks, end);
    if next != RAM_ADDR_MAX {
      var j :| 0 <= j < |blocks| && blocks[j].offset == next;
      assert Apart(blocks[j], run);
      assert blocks[j].Ok();
    }
  }

  /** A page at 0 is free, but with the rest in use a page is refused. */
  lemma LowSpaceUnused()
    requires 2 * TARGET_PAGE_SIZE < TWO_64
    ensures var p := TARGET_PAGE_SIZE;
            var blocks := [Block(p, TWO_64 - 2 * p)];
            && Disjoint(blocks) && Block(0, p).Ok() && ApartFromAll(blocks, Block(0, p))
            && NoGap(blocks, 1, p)
  {
    var p := TARGET_PAGE_SIZE;
    var blocks := [Block(p, TWO_64 - 2 * p)];
    NextStartIs(blocks, TWO_64 - p);
  }

  // ---------------------------------------------------------------- the list

  /** Where a block of `length` goes: before the first smaller one. */
  function InsertAt(blocks: seq<Block>, length: nat): (i: nat)
    ensures i <= |blocks|
    ensures i < |blocks| ==> blocks[i].length < length
    ensures forall k :: 0 <= k < i ==> blocks[k].length >= length
  {
    if blocks == [] || blocks[0].length < length then 0 else 1 + InsertAt(blocks[1..], length)
  }

  function Inserted(blocks: seq<Block>, b: Block): seq<Block>
  {
    var i := InsertAt(blocks, b.length);
    blocks[..i] + [b] + blocks[i..]
  }

  /** Where the block at `addr` is, or the end. */
  function OffsetAt(blocks: seq<Block>, addr: nat): (i: nat)
    ensures i <= |blocks| && (i < |blocks| ==> blocks[i].offset == addr)
    ensures forall k :: 0 <= k < i ==> blocks[k].offset != addr
  {
    if blocks == [] || blocks[0].offset == addr then 0 else 1 + OffsetAt(blocks[1..], addr)
  }

  function Removed(blocks: seq<Block>, addr: nat): seq<Block>
  {
    var i := OffsetAt(blocks, addr);
    if i < |blocks| then blocks[..i] + blocks[i + 1..] else blocks
  }

  /** What every operation keeps true of the list. */
  predicate ListOk(blocks: seq<Block>)
  {
    Disjoint(blocks) && BiggestFirst(blocks) && Aligned(blocks)
  }

  lemma InsertedAt(blocks: seq<Block>, b: Block, k: nat)
    requires k <= |blocks|
    ensures |Inserted(blocks, b)| == |blocks| + 1
    ensures var i := InsertAt(blocks, b.length);
            Inserted(blocks, b)[k] == if k < i then blocks[k] else if k == i then b else blocks[k - 1]
  {
  }

  lemma InsertedOk(blocks: seq<Block>, b: Block)
    requires ListOk(blocks) && b.Ok() && ApartFromAll(blocks, b) && b.OnPages()
    ensures ListOk(Inserted(blocks, b))
  {
    hide Inserted, InsertAt, Apart;
    var after := Inserted(blocks, b);
    InsertedAt(blocks, b, 0);
    forall j, k | 0 <= j < k < |after| ensures Apart(after[j], after[k]) && after[j].length >= after[k].length {
      InsertedAt(blocks, b, j);
      InsertedAt(blocks, b, k);
      ApartSwap(after[j], after[k]);
    }
    forall k | 0 <= k < |after| ensures after[k].Ok() && after[k].OnPages() {
      InsertedAt(blocks, b, k);
    }
  }

  lemma ApartSwap(x: Block, y: Block)
    ensures Apart(x, y) <==> Apart(y, x)
  {
  }

  lemma RemovedAt(blocks: seq<Block>, addr: nat, k: nat)
    requires k < |Removed(blocks, addr)|
    ensures var i := OffsetAt(blocks, addr);
            && |Removed(blocks, addr)| == (if i < |blocks| then |blocks| - 1 else |blocks|)
            && Removed(blocks, addr)[k] == if k < i then blocks[k] else blocks[k + 1]
  {
    hide OffsetAt;
  }

  lemma RemovedOk(blocks: seq<Block>, addr: nat)
    requires ListOk(blocks)
    ensures ListOk(Removed(blocks, addr))
  {
    hide Removed, OffsetAt, Apart;
    var after := Removed(blocks, addr);
    forall j, k | 0 <= j < k < |after| ensures Apart(after[j], after[k]) && after[j].length >= after[k].length {
      RemovedAt(blocks, addr, j);
      RemovedAt(blocks, addr, k);
    }
    forall k | 0 <= k < |after| ensures after[k].Ok() && after[k].OnPages() {
      RemovedAt(blocks, addr, k);
    }
  }

  /** Exactly the block at the address goes. */
  lemma RemovedIs(blocks: seq<Block>, addr: nat, b: Block)
    requires Disjoint(blocks)
    ensures b in Removed(blocks, addr) <==> b in blocks && b.offset != addr
  {
    hide OffsetAt;
    var i, after := OffsetAt(blocks, addr), Removed(blocks, addr);
    if b in after {
      var k :| 0 <= k < |after| && after[k] == b;
      RemovedAt(blocks, addr, k);
      if k >= i { assert Apart(blocks[i], blocks[k + 1]) && blocks[i].Ok() && blocks[k + 1].Ok(); }
    }
    if b in blocks && b.offset != addr && i < |blocks| {
      var k :| 0 <= k < |blocks| && blocks[k] == b;
      assert b == if k < i then after[k] else after[k - 1];
    }
  }

  /** Freeing what was just allocated gives back the list. */
  lemma FreeUndoesAlloc(blocks: seq<Block>, b: Block)
    requires Disjoint(blocks) && b.Ok() && ApartFromAll(blocks, b)
    ensures Removed(Inserted(blocks, b), b.offset) == blocks
  {
    hide InsertAt, OffsetAt;
    var i, after := InsertAt(blocks, b.length), Inserted(blocks, b);
    FirstAt(after, b.offset, i) by {
      forall k | 0 <= k < i ensures after[k].offset != b.offset {
        assert after[k] == blocks[k] && blocks[k].Ok() && Apart(blocks[k], b);
      }
      assert after[i] == b;
    }
    assert after[..i] == blocks[..i] && after[i + 1..] == blocks[i..];
    assert blocks[..i] + blocks[i..] == blocks;
  }

  lemma FirstAt(blocks: seq<Block>, addr: nat, i: nat)
    requires i < |blocks| && blocks[i].offset == addr && forall k :: 0 <= k < i ==> blocks[k].offset != addr
    ensures OffsetAt(blocks, addr) == i
  {
  }

  /** The block that has an address, by scanning the list. */
  function Scan(blocks: seq<Block>, addr: nat): (r: Option<Block>)
    ensures r.Some? ==> r.value in blocks && r.value.Has(addr)
    ensures r.None? ==> forall b <- blocks :: !b.Has(addr)
  {
    if blocks == [] then None
    else if blocks[0].Has(addr) then Some(blocks[0])
    else Scan(blocks[1..], addr)
  }

  lemma ScanNone(blocks: seq<Block>, addr: nat)
    requires forall k :: 0 <= k < |blocks| ==> !blocks[k].Has(addr)
    ensures Scan(blocks, addr) == None
  {
  }

  lemma OnlyBlock(blocks: seq<Block>, addr: nat, b: Block)
    requires Disjoint(blocks) && b in blocks && b.Has(addr)
    ensures Scan(blocks, addr) == Some(b)
  {
    var s := Scan(blocks, addr);
    var i, j :| 0 <= i < |blocks| && 0 <= j < |blocks| && blocks[i] == b && blocks[j] == s.value;
    OneBlock(blocks, addr, i, j);
  }

  lemma OneBlock(blocks: seq<Block>, addr: nat, i: nat, j: nat)
    requires Disjoint(blocks) && i < |blocks| && j < |blocks| && blocks[i].Has(addr) && blocks[j].Has(addr)
    ensures i == j
  {
  }

  /** The unsigned comparison says whether the block has the address. */
  lemma WrapsIsHas(b: Block, addr: nat)
    requires b.Ok() && addr < TWO_64
    ensures b.Wraps(addr) <==> b.Has(addr)
  {
    if addr < b.offset {
      assert (addr - b.offset) % TWO_64 == addr - b.offset + TWO_64;
    } else {
      assert (addr - b.offset) % TWO_64 == addr - b.offset;
    }
  }

  /** TARGET_PAGE_ALIGN on a 64-bit value. */
  function PageAlign(size: nat): nat
  {
    RoundDown((size + TARGET_PAGE_SIZE - 1) % TWO_64)
  }

  /** The size rounded up to whole pages, except that the sizes of the last page wrap to nothing. */
  lemma PageAlignIs(size: nat)
    requires size < TWO_64
    ensures PageAlign(size) < TWO_64 && PageAlign(size) % TARGET_PAGE_SIZE == 0
    ensures size + TARGET_PAGE_SIZE <= TWO_64 ==> size <= PageAlign(size) < size + TARGET_PAGE_SIZE
    ensures size + TARGET_PAGE_SIZE > TWO_64 >= TARGET_PAGE_SIZE ==> PageAlign(size) == 0
  {
    var t := (size + TARGET_PAGE_SIZE - 1) % TWO_64;
    Quotient(RoundDown(t), TARGET_PAGE_SIZE, t / TARGET_PAGE_SIZE, 0);
    if size + TARGET_PAGE_SIZE <= TWO_64 {
      assert t == size + TARGET_PAGE_SIZE - 1;
      assert PageAlign(size) == RoundDown(t);
    } else if TARGET_PAGE_SIZE <= TWO_64 {
      assert t == size + TARGET_PAGE_SIZE - 1 - TWO_64;
      Quotient(t, TARGET_PAGE_SIZE, 0, t);
    }
  }

  lemma SumOnPage(b: Block)
    requires b.OnPages()
    ensures b.End() % TARGET_PAGE_SIZE == 0
  {
    var x, y := b.offset / TARGET_PAGE_SIZE, b.length / TARGET_PAGE_SIZE;
    MulDistribute(x, y, TARGET_PAGE_SIZE);
    Quotient(b.End(), TARGET_PAGE_SIZE, x + y, 0);
  }

  /** ram_list. The blocks are told apart by their offsets, so a block stands for the pointer to it. */
  class RamList {
    var blocks: seq<Block>
    var mruBlock: Option<Block>
    var version: nat

    ghost predicate Valid()
      reads this
    {
      ListOk(blocks) && (mruBlock.Some? ==> mruBlock.value in blocks)
    }

    constructor ()
      ensures Valid() && blocks == []
    {
      blocks, mruBlock, version := [], None, 0;
    }

    /**
      qemu_ram_alloc_from_ptr; None stands for the aborts, which leave the list alone. The new block is free space,
      placed by best fit, and goes into the list before the first smaller block.
     */
    method Alloc(size: nat) returns (r: Option<nat>)
      requires Valid() && size < TWO_64
      modifies this
      ensures Valid()
      ensures r.None? ==> blocks == old(blocks) && mruBlock == old(mruBlock) && version == old(version)
      ensures r.None? <==>
                PageAlign(size) == 0 || (old(blocks) != [] && NoGap(old(blocks), |old(blocks)|, PageAlign(size)))
      ensures r.Some? ==>
                var b := Block(r.value, PageAlign(size));
                && b.Ok() && b.OnPages() && ApartFromAll(old(blocks), b)
                && blocks == Inserted(old(blocks), b) && mruBlock == None
                && version == (old(version) + 1) % 0x1_0000_0000
      ensures r.Some? && old(blocks) == [] ==> r.value == 0
      ensures r.Some? && old(blocks) != [] ==>
                exists at: nat ::
                  Best(old(blocks), |old(blocks)|, PageAlign(size), at) && r.value == old(blocks)[at].End()
    {
      var length := PageAlign(size);
      PageAlignIs(size);
      if length == 0 {
        return None;
      }
      ghost var at;
      r, at := FindRamOffset(blocks, length);
      if r.Some? {
        var b := Block(r.value, length);
        PlacedOk(blocks, b, at);
        Insert(b);
        mruBlock := None;
        version := (version + 1) % 0x1_0000_0000;
      }
    }

    /** The loop that keeps the list sorted from biggest to smallest. */
    method Insert(b: Block)
      requires ListOk(blocks) && b.Ok() && b.OnPages() && ApartFromAll(blocks, b)
      modifies `blocks
      ensures blocks == Inserted(old(blocks), b) && ListOk(blocks)
    {
      hide ListOk, ApartFromAll;
      InsertedOk(blocks, b);
      var i := 0;
      while i < |blocks| && blocks[i].length >= b.length
        invariant i <= |blocks| && forall k :: 0 <= k < i ==> blocks[k].length >= b.length
      {
        i := i + 1;
      }
      assert i == InsertAt(blocks, b.length);
      blocks := blocks[..i] + [b] + blocks[i..];
    }

    /** qemu_ram_free; an address that starts no block changes nothing. */
    method Free(addr: nat)
      requires Valid()
      modifies this
      ensures Valid() && blocks == Removed(old(blocks), addr)
      ensures blocks == old(blocks) ==> mruBlock == old(mruBlock) && version == old(version)
      ensures blocks != old(blocks) ==> mruBlock == None && version == (old(version) + 1) % 0x1_0000_0000
    {
      hide ListOk;
      RemovedOk(blocks, addr);
      var i := 0;
      while i < |blocks| && blocks[i].offset != addr
        invariant i <= |blocks| && forall k :: 0 <= k < i ==> blocks[k].offset != addr
      {
        i := i + 1;
      }
      if i < |blocks| {
        FirstAt(blocks, addr, i);
        blocks := blocks[..i] + blocks[i + 1..];
        mruBlock := None;
        version := (version + 1) % 0x1_0000_0000;
      } else {
        assert OffsetAt(blocks, addr) == |blocks|;
      }
    }

    /** qemu_get_ram_block: the cached block or a scan, always the one block that has the address. */
    method GetBlock(addr: nat) returns (r: Option<Block>)
      requires Valid() && addr < TWO_64
      modifies `mruBlock
      ensures Valid() && r == Scan(blocks, addr)
      ensures mruBlock == if r.Some? then r else old(mruBlock)
    {
      hide Scan, BiggestFirst, Aligned, Apart, Block.Wraps;
      if mruBlock.Some? && mruBlock.value.Wraps(addr) {
        WrapsIsHas(mruBlock.value, addr);
        OnlyBlock(blocks, addr, mruBlock.value);
        return mruBlock;
      }
      for i := 0 to |blocks|
        invariant mruBlock == old(mruBlock) && forall k :: 0 <= k < i ==> !blocks[k].Has(addr)
      {
        WrapsIsHas(blocks[i], addr);
        if blocks[i].Wraps(addr) {
          OnlyBlock(blocks, addr, blocks[i]);
          mruBlock := Some(blocks[i]);
          return mruBlock;
        }
      }
      ScanNone(blocks, addr);
      r := None;
    }

    /** last_ram_offset: the end of the highest block. */
    method LastOffset() returns (last: nat)
      ensures forall b <- blocks :: b.End() <= last
      ensures last == 0 || exists b <- blocks :: b.End() == last
    {
      last := 0;
      for i := 0 to |blocks|
        invariant forall k :: 0 <= k < i ==> blocks[k].End() <= last
        invariant last == 0 || exists b <- blocks :: b.End() == last
      {
        last := Max(last, blocks[i].End());
        assert blocks[i] in blocks;
      }
    }
  }

  /** What find_ram_offset gives is free space on a page boundary. */
  lemma PlacedOk(blocks: seq<Block>, b: Block, at: nat)
    requires ListOk(blocks) && 0 < b.length < TWO_64 && b.length % TARGET_PAGE_SIZE == 0
    requires blocks == [] ==> b.offset == 0
    requires blocks != [] ==> Best(blocks, |blocks|, b.length, at) && b.offset == blocks[at].End()
    ensures b.Ok() && b.OnPages() && ApartFromAll(blocks, b)
  {
    if blocks == [] {
      Quotient(0, TARGET_PAGE_SIZE, 0, 0);
    } else {
      GapIsFree(blocks, at, b.length);
      SumOnPage(blocks[at]);
      assert b == Block(blocks[at].End(), b.length);
    }
  }
}
