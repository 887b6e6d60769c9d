/** Writing guest memory as an ELF core file: where each segment's bytes are in the file (dump.c). */
module Dump {
  import opened Common
  import opened Arithmetic
  import opened MemoryRegion
  import opened FlatView
  import opened MemoryMapping

  type Byte = bv8

  const UINT16_MAX := 0xFFFF
  const UINT32_MAX := 0xFFFF_FFFF
  const PN_XNUM := 0xFFFF

  // ---------------------------------------------------------------- what is written

  /** The range the user asked for, if any. */
  datatype Filter = All | Range(begin: nat, length: nat) {
    predicate Has(a: int) { All? || begin <= a < begin + length }

    /** The block is not out of the range. */
    predicate Meets(b: PhysBlock) { All? || !(b.start >= begin + length || b.end <= begin) }

    function Lo(b: PhysBlock): int { if All? then b.start else Max(b.start, begin) }

    function Hi(b: PhysBlock): int { if All? then b.end else Min(b.end, begin + length) }

    /** How many bytes of the block are written. */
    function Size(b: PhysBlock): nat
      requires b.start < b.end
    {
      if Meets(b) then Hi(b) - Lo(b) else 0
    }
  }

  /** `size` bytes of host memory. */
  function HostBytes(host: int -> Byte, addr: int, size: nat): (r: seq<Byte>)
    ensures |r| == size
  {
    seq(size, i requires 0 <= i < size => host(addr + i))
  }

  lemma HostBytesSplit(host: int -> Byte, addr: int, n: nat, m: nat)
    ensures HostBytes(host, addr, n) + HostBytes(host, addr + n, m) == HostBytes(host, addr, n + m)
  {
    var whole, parts := HostBytes(host, addr, n + m), HostBytes(host, addr, n) + HostBytes(host, addr + n, m);
    forall i | 0 <= i < n + m ensures whole[i] == parts[i] {
      if i >= n { assert addr + n + (i - n) == addr + i; }
    }
  }

  /** Where the bytes of block `k` begin among all bytes written. */
  function OffsetOf(f: Filter, blocks: seq<PhysBlock>, k: nat): nat
    requires Ascending(blocks) && k <= |blocks|
  {
    if k == 0 then 0 else OffsetOf(f, blocks, k - 1) + f.Size(blocks[k - 1])
  }

  /** The bytes of one block that are written. */
  function BlockBytes(host: int -> Byte, f: Filter, b: PhysBlock): seq<Byte>
    requires b.start < b.end
  {
    HostBytes(host, b.HostAt(f.Lo(b)), f.Size(b))
  }

  /** The memory part of the file, up to block `k`. */
  function Memory(host: int -> Byte, f: Filter, blocks: seq<PhysBlock>, k: nat): (r: seq<Byte>)
    requires Ascending(blocks) && k <= |blocks|
    ensures |r| == OffsetOf(f, blocks, k)
  {
    if k == 0 then [] else Memory(host, f, blocks, k - 1) + BlockBytes(host, f, blocks[k - 1])
  }

  /** Byte `j` of what is written of block `k`. */
  lemma {:induction false} MemoryAt(host: int -> Byte, f: Filter, blocks: seq<PhysBlock>, n: nat, k: nat, j: nat)
    requires Ascending(blocks) && k < n <= |blocks| && j < f.Size(blocks[k])
    ensures OffsetOf(f, blocks, k) + j < OffsetOf(f, blocks, n)
    ensures Memory(host, f, blocks, n)[OffsetOf(f, blocks, k) + j] == host(blocks[k].HostAt(f.Lo(blocks[k])) + j)
    decreases n
  {
    if k < n - 1 {
      MemoryAt(host, f, blocks, n - 1, k, j);
    }
  }

  // ---------------------------------------------------------------- where it is

  /** A stored address: in the range, and in some block. */
  ghost predicate Stored(f: Filter, blocks: seq<PhysBlock>, a: int)
  {
    f.Has(a) && HostAt(blocks, a).Some?
  }

  /** Block `k` writes the address. */
  predicate Holds(f: Filter, b: PhysBlock, a: int)
  {
    f.Meets(b) && f.Lo(b) <= a < f.Hi(b)
  }

  lemma HoldsIs(f: Filter, b: PhysBlock, a: int)
    ensures Holds(f, b, a) <==> b.Has(a) && f.Has(a)
  {
  }

  lemma StoredNot(f: Filter, blocks: seq<PhysBlock>, a: int)
    requires !f.Has(a) || forall k :: 0 <= k < |blocks| ==> !Holds(f, blocks[k], a)
    ensures !Stored(f, blocks, a)
  {
    if Stored(f, blocks, a) {
      var i := HostAtSome(blocks, a);
      HoldsIs(f, blocks[i], a);
    }
  }

  lemma HeldStored(f: Filter, blocks: seq<PhysBlock>, a: int, k: nat)
    requires Ascending(blocks) && k < |blocks| && Holds(f, blocks[k], a)
    ensures Stored(f, blocks, a)
  {
    HoldsIs(f, blocks[k], a);
    HostAtIndex(blocks, k, a);
  }

  /** get_offset_range; an offset of -1 says that the address is not in the file. */
  method GetOffsetRange(phys: int, length: nat, f: Filter, blocks: seq<PhysBlock>, memoryOffset: nat)
    returns (offset: int, filesz: nat, ghost at: nat)
    requires Ascending(blocks)
    ensures offset == -1 || offset >= memoryOffset
    ensures offset == -1 <==> !Stored(f, blocks, phys)
    ensures offset == -1 ==> filesz == 0
    ensures offset != -1 ==>
              && at < |blocks| && Holds(f, blocks[at], phys)
              && offset == memoryOffset + OffsetOf(f, blocks, at) + (phys - f.Lo(blocks[at]))
              && filesz == Min(length, f.Hi(blocks[at]) - phys)
  {
    hide HostAt, Stored;
    at := 0;
    if f.Range? && (phys < f.begin || phys >= f.begin + f.length) {
      StoredNot(f, blocks, phys);
      return -1, 0, 0;
    }
    var off := memoryOffset;
    for k := 0 to |blocks|
      invariant off == memoryOffset + OffsetOf(f, blocks, k)
      invariant forall i :: 0 <= i < k ==> !Holds(f, blocks[i], phys)
    {
      var b := blocks[k];
      if f.Range? && (b.start >= f.begin + f.length || b.end <= f.begin) {
        continue;
      }
      var start := if f.All? || f.begin <= b.start then b.start else f.begin;
      var size := b.end - start;
      if f.Range? && f.begin + f.length < b.end {
        size := size - (b.end - (f.begin + f.length));
      }
      assert start == f.Lo(b) && size == f.Size(b);
      if start <= phys < start + size {
        HeldStored(f, blocks, phys, k);
        return phys - start + off, if phys + length <= start + size then length else size - (phys - start), k;
      }
      off := off + size;
    }
    StoredNot(f, blocks, phys);
    return -1, 0, 0;
  }

  // ---------------------------------------------------------------- program headers

  /** A PT_LOAD header. */
  datatype Load = Load(offset: int, filesz: nat, phys: int, virt: int, memsz: int)

  /** How many values a header field can hold. */
  function Width(elf64: bool): int { if elf64 then TWO_64 else 0x1_0000_0000 }

  /**
    The header as its fields are written: values are cut to the width of the class, and an offset of -1 becomes all
    ones.
   */
  datatype Phdr = Phdr(offset: nat, filesz: nat, paddr: nat, vaddr: nat, memsz: nat)

  function Encoded(elf64: bool, l: Load): Phdr
  {
    var w := Width(elf64);
    Phdr(l.offset % w, l.filesz % w, l.phys % w, l.virt % w, l.memsz % w)
  }

  /** The fields can hold the values. */
  predicate FieldsFit(elf64: bool, l: Load)
  {
    var w := Width(elf64);
    0 <= l.offset < w && l.filesz < w && 0 <= l.phys < w && 0 <= l.virt < w && 0 <= l.memsz < w
  }

  /** The fields give the values back exactly when they can hold them; not being stored is told apart in any case. */
  lemma EncodedIs(elf64: bool, l: Load)
    ensures FieldsFit(elf64, l) <==>
            Encoded(elf64, l).offset == l.offset && Encoded(elf64, l).filesz == l.filesz
            && Encoded(elf64, l).paddr == l.phys
            && Encoded(elf64, l).vaddr == l.virt && Encoded(elf64, l).memsz == l.memsz
    ensures l.offset == -1 ==> Encoded(elf64, l).offset == Width(elf64) - 1
  {
    hide Encoded;
    EncodedFields(elf64, l);
    FieldIs(l.offset, Width(elf64));
    FieldIs(l.filesz, Width(elf64));
    FieldIs(l.phys, Width(elf64));
    FieldIs(l.virt, Width(elf64));
    FieldIs(l.memsz, Width(elf64));
  }

  /** In numbers: what the fields of the two classes can hold. */
  lemma FieldsAre(l: Load)
    ensures FieldsFit(true, l) <==>
            && 0 <= l.offset < 0x1_0000_0000_0000_0000 && l.filesz < 0x1_0000_0000_0000_0000
            && 0 <= l.phys < 0x1_0000_0000_0000_0000 && 0 <= l.virt < 0x1_0000_0000_0000_0000
            && 0 <= l.memsz < 0x1_0000_0000_0000_0000
    ensures FieldsFit(false, l) <==>
            && 0 <= l.offset < 0x1_0000_0000 && l.filesz < 0x1_0000_0000 && 0 <= l.phys < 0x1_0000_0000
            && 0 <= l.virt < 0x1_0000_0000 && 0 <= l.memsz < 0x1_0000_0000
  {
  }

  lemma EncodedFields(elf64: bool, l: Load)
    ensures var h, w := Encoded(elf64, l), Width(elf64);
            h.offset == l.offset % w && h.filesz == l.filesz % w && h.paddr == l.phys % w && h.vaddr == l.virt % w
            && h.memsz == l.memsz % w
  {
  }

  lemma FieldIs(x: int, w: int)
    requires 1 < w
    ensures x % w == x <==> 0 <= x < w
    ensures x == -1 ==> x % w == w - 1
  {
    if 0 <= x < w { Quotient(x, w, 0, x); }
    if x == -1 { Quotient(x, w, -1, w - 1); }
  }

  /** A header the class has room for, read back as a reader of the file would, points at the guest's bytes. */
  ghost predicate ReadsBack(h: Phdr, head: nat, memory: seq<Byte>, view: seq<FlatRange>,
                            ramPtr: RegionId -> Option<int>, host: int -> Byte)
  {
    Faithful(Load(h.offset, h.filesz, h.paddr, h.vaddr, h.memsz), head, memory, view, ramPtr, host)
  }

  /** What one guest-physical address holds, if it is RAM. */
  function GuestByte(view: seq<FlatRange>, ramPtr: RegionId -> Option<int>, host: int -> Byte, a: int): Option<Byte>
  {
    match RamAt(view, ramPtr, a)
    case None => None
    case Some(h) => Some(host(h))
  }

  /** What the file holds at an offset in its memory part. */
  function FileByte(head: nat, memory: seq<Byte>, o: int): Option<Byte>
  {
    if head <= o < head + |memory| then Some(memory[o - head]) else None
  }

  ghost predicate SameBlock(blocks: seq<PhysBlock>, a: int, b: int)
  {
    exists k :: 0 <= k < |blocks| && blocks[k].Has(a) && blocks[k].Has(b)
  }

  /** The header describes its mapping, and points at as many of its bytes as are stored together. */
  ghost predicate LoadOk(l: Load, m: Mapping, f: Filter, blocks: seq<PhysBlock>)
  {
    && l.phys == m.phys && l.virt == m.virt && l.memsz == m.length && l.filesz <= l.memsz
    && (l.offset == -1 <==> !Stored(f, blocks, l.phys))
    && (l.offset == -1 ==> l.filesz == 0)
    && (l.offset != -1 && l.filesz < l.memsz ==>
         !f.Has(l.phys + l.filesz) || !SameBlock(blocks, l.phys, l.phys + l.filesz))
  }

  /** The bytes it points at are those of block `k`. */
  predicate LoadPoints(l: Load, f: Filter, blocks: seq<PhysBlock>, memoryOffset: nat, k: nat)
    requires Ascending(blocks)
  {
    l.offset != -1 ==>
      && k < |blocks| && Holds(f, blocks[k], l.phys)
      && l.offset == memoryOffset + OffsetOf(f, blocks, k) + (l.phys - f.Lo(blocks[k]))
      && l.filesz == Min(l.memsz, f.Hi(blocks[k]) - l.phys)
  }

  lemma LoadMaximal(l: Load, m: Mapping, f: Filter, blocks: seq<PhysBlock>, memoryOffset: nat, k: nat)
    requires Ascending(blocks) && LoadPoints(l, f, blocks, memoryOffset, k) && l.offset != -1
    requires l.filesz < l.memsz && f.Has(l.phys + l.filesz)
    ensures !SameBlock(blocks, l.phys, l.phys + l.filesz)
  {
    var e := l.phys + l.filesz;
    HoldsIs(f, blocks[k], l.phys);
    forall j | 0 <= j < |blocks| && blocks[j].Has(l.phys) ensures !blocks[j].Has(e) {
      OneBlock(blocks, j, k, l.phys);
    }
  }

  lemma OneBlock(blocks: seq<PhysBlock>, i: nat, j: nat, a: int)
    requires Ascending(blocks) && i < |blocks| && j < |blocks| && blocks[i].Has(a) && blocks[j].Has(a)
    ensures i == j
  {
  }

  /** For the small class it is enough that the file and the addresses stay below 2^32. */
  lemma SmallFits(elf64: bool, l: Load, m: Mapping, f: Filter, blocks: seq<PhysBlock>, memoryOffset: nat, k: nat)
    requires Ascending(blocks) && LoadOk(l, m, f, blocks) && LoadPoints(l, f, blocks, memoryOffset, k) && l.offset != -1
    requires memoryOffset + OffsetOf(f, blocks, |blocks|) <= Width(elf64)
    requires 0 <= m.phys < Width(elf64) && 0 <= m.virt < Width(elf64) && 0 <= m.length < Width(elf64)
    ensures FieldsFit(elf64, l)
  {
    hide Stored, SameBlock, Ascending, HostAt;
    OffsetMonotone(f, blocks, k + 1, |blocks|);
  }

  lemma {:induction false} OffsetMonotone(f: Filter, blocks: seq<PhysBlock>, i: nat, j: nat)
    requires Ascending(blocks) && i <= j <= |blocks|
    ensures OffsetOf(f, blocks, i) <= OffsetOf(f, blocks, j)
    decreases j
  {
    if i < j { OffsetMonotone(f, blocks, i, j - 1); }
  }

  /** Every byte a header points at is the guest's byte at the address the header gives for it. */
  lemma LoadBytes(l: Load, f: Filter, blocks: seq<PhysBlock>, memoryOffset: nat, k: nat, host: int -> Byte,
                  view: seq<FlatRange>, ramPtr: RegionId -> Option<int>, i: nat)
    requires Ascending(blocks) && LoadPoints(l, f, blocks, memoryOffset, k) && l.offset != -1 && i < l.filesz
    requires Represents(blocks, view, ramPtr)
    ensures var file := FileByte(memoryOffset, Memory(host, f, blocks, |blocks|), l.offset + i);
            file.Some? && file == GuestByte(view, ramPtr, host, l.phys + i)
  {
    hide Memory, OffsetOf, HostAt, RamAt, Ascending;
    var b, j := blocks[k], l.phys - f.Lo(blocks[k]) + i;
    HoldsIs(f, b, l.phys + i);
    HostAtIndex(blocks, k, l.phys + i);
    MemoryAt(host, f, blocks, |blocks|, k, j);
    assert HostAt(blocks, l.phys + i) == RamAt(view, ramPtr, l.phys + i);
  }

  // ---------------------------------------------------------------- the dump

  /** The sizes of the ELF structures. */
  function Ehdr(elf64: bool): nat { if elf64 then 64 else 52 }

  function Phdrs(elf64: bool, n: nat): nat { if elf64 then 56 * n else 32 * n }

  function Shdr(elf64: bool): nat { if elf64 then 64 else 40 }

  /** How many mappings get a header: all, but for the one that a 32-bit count cannot announce. */
  function LoadCount(n: nat): nat { Min(n, UINT32_MAX - 1) }

  /** What comes before memory: the file header, a note header and the load headers, the section header, the notes. */
  function HeadBytes(elf64: bool, n: nat, section: bool, notes: nat): nat
  {
    Ehdr(elf64) + Phdrs(elf64, 1 + n) + (if section then Shdr(elf64) else 0) + notes
  }

  /** How `n` mappings are announced: the file header counts them, or where it cannot, the section header does. */
  predicate Announced(n: nat, haveSection: bool, phdrNum: nat, shInfo: nat)
  {
    && (haveSection <==> n >= UINT16_MAX - 2)
    && if haveSection then phdrNum == PN_XNUM && shInfo == 1 + LoadCount(n) else phdrNum == 1 + LoadCount(n) < PN_XNUM
  }

  /** In numbers: the sizes of the headers in the ELF format, and the counts the file header can and cannot hold. */
  lemma HeadersAre(n: nat, notes: nat)
    ensures HeadBytes(true, n, false, notes) == 64 + 56 * (1 + n) + notes
    ensures HeadBytes(true, n, true, notes) == 64 + 56 * (1 + n) + 64 + notes
    ensures HeadBytes(false, n, false, notes) == 52 + 32 * (1 + n) + notes
    ensures HeadBytes(false, n, true, notes) == 52 + 32 * (1 + n) + 40 + notes
    ensures forall section, num, info ::
              Announced(n, section, num, info) <==>
                if n < 65533 then !section && num == 1 + n
                else section && num == 65535 && info == (if n < 4294967295 then 1 + n else 4294967295)
  {
  }

  predicate MappingsOk(list: seq<Mapping>)
  {
    forall i :: 0 <= i < |list| ==> list[i].length >= 0
  }

  lemma {:induction false} MemorySkip(host: int -> Byte, f: Filter, blocks: seq<PhysBlock>, i: nat, j: nat)
    requires Ascending(blocks) && i <= j <= |blocks|
    requires forall k :: i <= k < j ==> !f.Meets(blocks[k])
    ensures Memory(host, f, blocks, i) == Memory(host, f, blocks, j)
    decreases j
  {
    if i < j {
      MemorySkip(host, f, blocks, i, j - 1);
      assert BlockBytes(host, f, blocks[j - 1]) == [];
    }
  }

  /** A DumpState. Of the headers, the program headers of the memory and the number of bytes are kept. */
  class DumpState {
    const host: int -> Byte
    const filter: Filter
    const elf64: bool
    const noteSize: nat
    var blocks: seq<PhysBlock>
    var list: seq<Mapping>
    var nextBlock: nat
    var start: int
    var haveSection: bool
    var phdrNum: nat
    var shInfo: nat
    var memoryOffset: nat
    var head: nat
    var loads: seq<Load>
    var phdrs: seq<Phdr>
    var memory: seq<Byte>

    constructor (host: int -> Byte, filter: Filter, elf64: bool, noteSize: nat)
      ensures this.host == host && this.filter == filter && this.elf64 == elf64 && this.noteSize == noteSize
      ensures head == 0 && loads == [] && phdrs == [] && memory == []
    {
      this.host, this.filter, this.elf64, this.noteSize := host, filter, elf64, noteSize;
      blocks, list, nextBlock, start := [], [], 0, 0;
      haveSection, phdrNum, shInfo, memoryOffset, head, loads, phdrs, memory := false, 0, 0, 0, 0, [], [], [];
    }

    /** The search is at a block of which something is written, and everything before it is done. */
    ghost predicate AtBlock(done: nat)
      reads this
    {
      && Ascending(blocks) && done <= nextBlock < |blocks|
      && (forall k :: done <= k < nextBlock ==> !filter.Meets(blocks[k]))
      && filter.Meets(blocks[nextBlock]) && start == filter.Lo(blocks[nextBlock]) - blocks[nextBlock].start
    }

    /** get_start_block; false stands for -1. */
    method GetStartBlock() returns (ok: bool)
      requires Ascending(blocks) && (filter.All? ==> blocks != [])
      modifies `nextBlock, `start
      ensures ok <==> exists k :: 0 <= k < |blocks| && filter.Meets(blocks[k])
      ensures ok ==> AtBlock(0)
    {
      if filter.All? {
        nextBlock, start := 0, 0;
        assert filter.Meets(blocks[0]);
        return true;
      }
      for k := 0 to |blocks|
        invariant forall i :: 0 <= i < k ==> !filter.Meets(blocks[i])
      {
        if blocks[k].start >= filter.begin + filter.length || blocks[k].end <= filter.begin {
          continue;
        }
        nextBlock := k;
        start := if filter.begin > blocks[k].start then filter.begin - blocks[k].start else 0;
        return true;
      }
      ok := false;
    }

    /** get_next_block; true stands for 1, no more block. */
    method GetNextBlock() returns (end: bool)
      requires Ascending(blocks) && nextBlock < |blocks|
      modifies `nextBlock, `start
      ensures nextBlock < |blocks| && (!end ==> AtBlock(old(nextBlock) + 1))
      ensures end ==> forall k :: old(nextBlock) < k < |blocks| ==> !filter.Meets(blocks[k])
    {
      for k := nextBlock + 1 to |blocks|
        invariant nextBlock < |blocks| && forall i :: old(nextBlock) < i < k ==> !filter.Meets(blocks[i])
      {
        nextBlock, start := k, 0;
        if filter.Range? {
          if blocks[k].start >= filter.begin + filter.length || blocks[k].end <= filter.begin {
            continue;
          }
          if filter.begin > blocks[k].start {
            start := filter.begin - blocks[k].start;
          }
        }
        return false;
      }
      end := true;
    }

    /** write_memory: a page at a time, and what remains. */
    method WriteMemory(addr: int, size: nat)
      modifies `memory
      ensures memory == old(memory) + HostBytes(host, addr, size)
    {
      hide HostBytes, Pages;
      HostBytesNone(host, addr);
      PagesAll(size);
      var i := 0;
      while i < size / TARGET_PAGE_SIZE
        invariant 0 <= i <= size / TARGET_PAGE_SIZE
        invariant memory == old(memory) + HostBytes(host, addr, Pages(i))
      {
        HostBytesSplit(host, addr, Pages(i), TARGET_PAGE_SIZE);
        PagesNext(i);
        memory := memory + HostBytes(host, addr + Pages(i), TARGET_PAGE_SIZE);
        i := i + 1;
      }
      if size % TARGET_PAGE_SIZE != 0 {
        HostBytesSplit(host, addr, Pages(i), size % TARGET_PAGE_SIZE);
        memory := memory + HostBytes(host, addr + Pages(i), size % TARGET_PAGE_SIZE);
      }
    }

    /** dump_iterate: the memory part is every block's bytes, in order. */
    method Iterate()
      requires AtBlock(0) && memory == []
      modifies `nextBlock, `start, `memory
      ensures memory == Memory(host, filter, blocks, |blocks|)
    {
      hide Memory, OffsetOf, Ascending, HostBytes;
      MemorySkip(host, filter, blocks, 0, nextBlock);
      MemoryNone(host, filter, blocks);
      var end := false;
      while !end
        invariant Ascending(blocks) && nextBlock < |blocks|
        invariant !end ==> AtBlock(nextBlock)
        invariant !end ==> memory == Memory(host, filter, blocks, nextBlock)
        invariant end ==> memory == Memory(host, filter, blocks, |blocks|)
        decreases !end, |blocks| - nextBlock
      {
        ghost var at := nextBlock;
        WriteBlock();
        end := GetNextBlock();
        MemorySkip(host, filter, blocks, at + 1, if end then |blocks| else nextBlock);
      }
    }

    /** The part of dump_iterate that writes one block. */
    method WriteBlock()
      requires AtBlock(nextBlock) && memory == Memory(host, filter, blocks, nextBlock)
      modifies `memory
      ensures memory == Memory(host, filter, blocks, nextBlock + 1)
    {
      var b := blocks[nextBlock];
      var size := b.end - b.start;
      if filter.Range? {
        size := size - start;
        if filter.begin + filter.length < b.end {
          size := size - (b.end - (filter.begin + filter.length));
        }
      }
      WriteMemory(b.host + start, size);
    }

    /** The part of dump_init that counts the program headers and says where memory will begin. */
    method Count()
      requires |list| <= UINT32_MAX
      modifies `haveSection, `phdrNum, `shInfo, `memoryOffset
      ensures Announced(|list|, haveSection, phdrNum, shInfo)
      ensures memoryOffset == HeadBytes(elf64, LoadCount(|list|), haveSection, noteSize)
    {
      phdrNum := 1;
      if |list| < UINT16_MAX - 2 {
        phdrNum := phdrNum + |list|;
        haveSection := false;
      } else {
        haveSection := true;
        phdrNum := PN_XNUM;
        shInfo := 1;
        if |list| <= UINT32_MAX - 1 {
          shInfo := shInfo + |list|;
        } else {
          shInfo := UINT32_MAX;
        }
      }
      memoryOffset :=
        if haveSection then Ehdr(elf64) + Phdrs(elf64, shInfo) + Shdr(elf64) + noteSize
        else Ehdr(elf64) + Phdrs(elf64, phdrNum) + noteSize;
    }

    /** write_elf_loads: a header for every mapping, up to the number announced. */
    method WriteLoads() returns (ghost at: seq<nat>)
      requires Ascending(blocks) && |list| <= UINT32_MAX && loads == [] && phdrs == [] && MappingsOk(list)
      requires (if haveSection then shInfo else phdrNum) == 1 + LoadCount(|list|)
      modifies `loads, `phdrs, `head
      ensures |loads| == LoadCount(|list|) && head == old(head) + Phdrs(elf64, |loads|)
      ensures |phdrs| == |loads| && forall i :: 0 <= i < |loads| ==> phdrs[i] == Encoded(elf64, loads[i])
      ensures forall i :: 0 <= i < |loads| ==> LoadOk(loads[i], list[i], filter, blocks)
      ensures |at| == |loads|
      ensures forall i :: 0 <= i < |loads| ==> LoadPoints(loads[i], filter, blocks, memoryOffset, at[i])
    {
      hide LoadOk, LoadPoints, Ascending, Encoded;
      var maxIndex := if haveSection then shInfo else phdrNum;
      var index, i := 1, 0;
      at := [];
      while i < |list|
        invariant i <= |list| && index == 1 + i && |loads| == i <= LoadCount(|list|)
                  && (i < |list| ==> index < maxIndex)
        invariant head == old(head) + Phdrs(elf64, i)
        invariant |phdrs| == i && forall j :: 0 <= j < i ==> phdrs[j] == Encoded(elf64, loads[j])
        invariant forall j :: 0 <= j < i ==> LoadOk(loads[j], list[j], filter, blocks)
        invariant |at| == i && forall j :: 0 <= j < i ==> LoadPoints(loads[j], filter, blocks, memoryOffset, at[j])
      {
        var l, k := MakeLoad(list[i]);
        loads := loads + [l];
        phdrs := phdrs + [Encoded(elf64, l)];
        at := at + [k];
        head := head + Phdrs(elf64, 1);
        index, i := index + 1, i + 1;
        if index >= maxIndex {
          break;
        }
      }
    }

    /** The header of one mapping. */
    method MakeLoad(m: Mapping) returns (l: Load, ghost k: nat)
      requires Ascending(blocks) && m.length >= 0
      ensures LoadOk(l, m, filter, blocks) && LoadPoints(l, filter, blocks, memoryOffset, k)
    {
      var offset, filesz;
      offset, filesz, k := GetOffsetRange(m.phys, m.length, filter, blocks, memoryOffset);
      l := Load(offset, filesz, m.phys, m.virt, m.length);
      if l.offset != -1 && l.filesz < l.memsz && filter.Has(l.phys + l.filesz) {
        LoadMaximal(l, m, filter, blocks, memoryOffset, k);
      }
    }

    /** dump_begin: the headers take up exactly the room that was counted for them. */
    method Begin() returns (ghost at: seq<nat>)
      requires Ascending(blocks) && |list| <= UINT32_MAX && loads == [] && phdrs == [] && MappingsOk(list) && head == 0
      requires (if haveSection then shInfo else phdrNum) == 1 + LoadCount(|list|)
      requires memoryOffset == HeadBytes(elf64, LoadCount(|list|), haveSection, noteSize)
      modifies `loads, `phdrs, `head
      ensures head == memoryOffset && |loads| == LoadCount(|list|)
      ensures |phdrs| == |loads| && forall i :: 0 <= i < |loads| ==> phdrs[i] == Encoded(elf64, loads[i])
      ensures forall i :: 0 <= i < |loads| ==> LoadOk(loads[i], list[i], filter, blocks)
      ensures |at| == |loads|
      ensures forall i :: 0 <= i < |loads| ==> LoadPoints(loads[i], filter, blocks, memoryOffset, at[i])
    {
      hide LoadOk, LoadPoints, Ascending, Encoded;
      head := head + Ehdr(elf64);
      head := head + Phdrs(elf64, 1);
      at := WriteLoads();
      if haveSection {
        head := head + Shdr(elf64);
      }
      head := head + noteSize;
    }

    /** The mappings of the page tables, or one a block, and of these what the range leaves. */
    method GetMappings(paging: Option<seq<Mapping>>)
      requires Ascending(blocks) && (paging.Some? ==> MappingsOk(paging.value))
      modifies `list
      ensures MappingsOk(list) && list == Chosen(filter, if paging.Some? then paging.value else MappingsOf(blocks))
      ensures |list| <= if paging.Some? then |paging.value| else |blocks|
    {
      hide Ascending, Filtered, MappingsOk;
      var mappings := new MappingList();
      if paging.Some? {
        mappings.list, mappings.num := paging.value, |paging.value|;
      } else {
        mappings.Simple(blocks);
      }
      ChosenOk(filter, mappings.list, blocks, paging.None?);
      if filter.Range? {
        mappings.Filter(filter.begin, filter.length);
      }
      list := mappings.list;
    }

    /** The part of dump_init that finds the blocks and the mappings; false stands for an unusable range. */
    method Init(view: seq<FlatRange>, ramPtr: RegionId -> Option<int>, paging: Option<seq<Mapping>>) returns (ok: bool)
      requires WellFormed(view) && |view| <= UINT32_MAX && (filter.All? ==> exists a :: RamAt(view, ramPtr, a).Some?)
      requires paging.Some? ==> |paging.value| <= UINT32_MAX && MappingsOk(paging.value)
      modifies this
      ensures head == old(head) && loads == old(loads) && phdrs == old(phdrs) && memory == old(memory)
      ensures Ascending(blocks) && Represents(blocks, view, ramPtr)
      ensures filter.All? || filter.length > 0 ==> (ok <==> exists a :: Stored(filter, blocks, a))
      ensures ok ==> AtBlock(0) && |list| <= UINT32_MAX && MappingsOk(list)
      ensures ok ==> list == Chosen(filter, if paging.Some? then paging.value else MappingsOf(blocks))
      ensures ok ==> Announced(|list|, haveSection, phdrNum, shInfo)
      ensures ok ==> memoryOffset == HeadBytes(elf64, LoadCount(|list|), haveSection, noteSize)
    {
      hide WellFormed, Ascending, Joined, HostAt, RamAt, Filtered, MappingsOk, Stored;
      var found := new PhysBlockList();
      found.Append(view, ramPtr);
      blocks := found.blocks;
      SomeBlock(blocks, view, ramPtr, filter);
      ok := GetStartBlock();
      MeetsStored(filter, blocks);
      if !ok {
        return;
      }
      GetMappings(paging);
      Count();
    }
  }

  /** The mappings a dump describes. */
  function Chosen(f: Filter, list: seq<Mapping>): seq<Mapping>
  {
    if f.All? then list else Filtered(list, f.begin, f.length)
  }

  lemma ChosenOk(f: Filter, list: seq<Mapping>, blocks: seq<PhysBlock>, simple: bool)
    requires if simple then Ascending(blocks) && list == MappingsOf(blocks) else MappingsOk(list)
    ensures MappingsOk(Chosen(f, list)) && |Chosen(f, list)| <= |list|
  {
    if f.Range? {
      FilteredLength(list, f.begin, f.length);
      forall i | 0 <= i < |Chosen(f, list)| ensures Chosen(f, list)[i].length >= 0 {
        var k := FilteredFrom(list, f.begin, f.length, i);
      }
    }
  }

  /** RAM somewhere means a block somewhere. */
  lemma SomeBlock(blocks: seq<PhysBlock>, view: seq<FlatRange>, ramPtr: RegionId -> Option<int>, f: Filter)
    requires Represents(blocks, view, ramPtr) && (f.All? ==> exists a :: RamAt(view, ramPtr, a).Some?)
    ensures f.All? ==> blocks != []
  {
    if f.All? {
      var a :| RamAt(view, ramPtr, a).Some?;
      assert HostAt(blocks, a) == RamAt(view, ramPtr, a);
    }
  }

  /** A range that is not empty meets a block exactly when it has something to store. */
  lemma MeetsStored(f: Filter, blocks: seq<PhysBlock>)
    requires Ascending(blocks)
    ensures f.All? || f.length > 0 ==>
              ((exists k :: 0 <= k < |blocks| && f.Meets(blocks[k])) <==> exists a :: Stored(f, blocks, a))
  {
    if f.All? || f.length > 0 {
      if k :| 0 <= k < |blocks| && f.Meets(blocks[k]) {
        HoldsIs(f, blocks[k], f.Lo(blocks[k]));
        HostAtIndex(blocks, k, f.Lo(blocks[k]));
        assert Stored(f, blocks, f.Lo(blocks[k]));
      }
      if a :| Stored(f, blocks, a) {
        var k := HostAtSome(blocks, a);
        assert f.Meets(blocks[k]);
      }
    }
  }

  // ---------------------------------------------------------------- the whole dump

  /** Every byte the header points at is in the file, and is the guest's. */
  ghost predicate Faithful(l: Load, head: nat, memory: seq<Byte>, view: seq<FlatRange>,
                           ramPtr: RegionId -> Option<int>, host: int -> Byte)
  {
    l.offset != -1 ==> forall i: nat :: i < l.filesz ==> SameByte(l, i, head, memory, view, ramPtr, host)
  }

  predicate SameByte(l: Load, i: nat, head: nat, memory: seq<Byte>, view: seq<FlatRange>,
                     ramPtr: RegionId -> Option<int>, host: int -> Byte)
  {
    var guest := GuestByte(view, ramPtr, host, l.phys + i);
    guest.Some? && FileByte(head, memory, l.offset + i) == guest
  }

  /** The header points at the byte of the address. */
  predicate InFile(l: Load, a: int)
  {
    l.offset != -1 && l.phys <= a < l.phys + l.filesz
  }

  ghost predicate SomeInFile(loads: seq<Load>, a: int)
  {
    exists i :: 0 <= i < |loads| && InFile(loads[i], a)
  }

  lemma LoadFaithful(l: Load, f: Filter, blocks: seq<PhysBlock>, memoryOffset: nat, k: nat, host: int -> Byte,
                     view: seq<FlatRange>, ramPtr: RegionId -> Option<int>)
    requires Ascending(blocks) && LoadPoints(l, f, blocks, memoryOffset, k) && Represents(blocks, view, ramPtr)
    ensures Faithful(l, memoryOffset, Memory(host, f, blocks, |blocks|), view, ramPtr, host)
  {
    hide Memory, GuestByte, FileByte, Ascending, Represents, LoadPoints;
    if l.offset != -1 {
      forall i: nat | i < l.filesz
        ensures SameByte(l, i, memoryOffset, Memory(host, f, blocks, |blocks|), view, ramPtr, host)
      {
        LoadBytes(l, f, blocks, memoryOffset, k, host, view, ramPtr, i);
      }
    }
  }

  lemma FitsReadsBack(elf64: bool, l: Load, head: nat, memory: seq<Byte>, view: seq<FlatRange>,
                      ramPtr: RegionId -> Option<int>, host: int -> Byte)
    requires FieldsFit(elf64, l) && Faithful(l, head, memory, view, ramPtr, host)
    ensures ReadsBack(Encoded(elf64, l), head, memory, view, ramPtr, host)
  {
    hide Faithful, Encoded;
    EncodedIs(elf64, l);
  }

  /**
    A dump of 4 GB in the small class: a header that points at a byte behind the first 4 GB of the file cannot be read
    back.
   */
  lemma SmallWraps(host: int -> Byte, ramPtr: RegionId -> Option<int>)
    requires ramPtr(1) == Some(0) && forall a :: host(a) == 1
    ensures var view := [FlatRange(1, 0, AddrRange(0, 0x1_0000_0000), 0, true, false)];
            var memory, l := seq(0x1_0000_0000, i => 1 as Byte), Load(0x1_0000_0000, 1, 0x1_0000_0000 - 100, 0, 1);
            && Faithful(l, 100, memory, view, ramPtr, host) && Encoded(false, l).offset == 0
            && !ReadsBack(Encoded(false, l), 100, memory, view, ramPtr, host)
  {
    var view := [FlatRange(1, 0, AddrRange(0, 0x1_0000_0000), 0, true, false)];
    var memory, l := seq(0x1_0000_0000, i => 1 as Byte), Load(0x1_0000_0000, 1, 0x1_0000_0000 - 100, 0, 1);
    AtSingle(view[0], l.phys);
    assert SameByte(l, 0, 100, memory, view, ramPtr, host);
    var h := Encoded(false, l);
    assert !SameByte(Load(h.offset, h.filesz, h.paddr, h.vaddr, h.memsz), 0, 100, memory, view, ramPtr, host);
  }

  /** A mapping made from a block is what the range leaves of the block. */
  lemma ChosenFrom(f: Filter, blocks: seq<PhysBlock>, i: nat) returns (k: nat)
    requires Ascending(blocks) && i < |Chosen(f, MappingsOf(blocks))|
    ensures k < |blocks| && f.Meets(blocks[k])
    ensures Chosen(f, MappingsOf(blocks))[i] == Mapping(f.Lo(blocks[k]), 0, f.Hi(blocks[k]) - f.Lo(blocks[k]))
  {
    if f.All? {
      k := i;
    } else {
      k := FilteredFrom(MappingsOf(blocks), f.begin, f.length, i);
    }
  }

  /** Without page tables every stored address is in some header's part of the file. */
  lemma AllDumped(f: Filter, blocks: seq<PhysBlock>, memoryOffset: nat, loads: seq<Load>, at: seq<nat>, a: int)
    requires Ascending(blocks) && |at| == |loads| == |Chosen(f, MappingsOf(blocks))|
    requires forall i :: 0 <= i < |loads| ==> LoadOk(loads[i], Chosen(f, MappingsOf(blocks))[i], f, blocks)
    requires forall i :: 0 <= i < |loads| ==> LoadPoints(loads[i], f, blocks, memoryOffset, at[i])
    requires Stored(f, blocks, a)
    ensures SomeInFile(loads, a)
  {
    var list := Chosen(f, MappingsOf(blocks));
    ChosenMaps(f, blocks, a);
    var i :| 0 <= i < |list| && list[i].Has(a);
    var k := ChosenFrom(f, blocks, i);
    BlockDumped(f, blocks, memoryOffset, loads[i], list[i], k, at[i]);
    assert InFile(loads[i], a);
  }

  lemma ChosenMaps(f: Filter, blocks: seq<PhysBlock>, a: int)
    requires Ascending(blocks) && Stored(f, blocks, a)
    ensures Maps(Chosen(f, MappingsOf(blocks)), a)
  {
    var k := HostAtSome(blocks, a);
    assert MappingsOf(blocks)[k].Has(a);
    if f.Range? { FilteredMaps(MappingsOf(blocks), f.begin, f.length, a); }
  }

  lemma BlockDumped(f: Filter, blocks: seq<PhysBlock>, memoryOffset: nat, l: Load, m: Mapping, k: nat, at: nat)
    requires Ascending(blocks) && LoadOk(l, m, f, blocks) && LoadPoints(l, f, blocks, memoryOffset, at)
    requires k < |blocks| && f.Meets(blocks[k]) && m == Mapping(f.Lo(blocks[k]), 0, f.Hi(blocks[k]) - f.Lo(blocks[k]))
             && m.length > 0
    ensures l.offset != -1 && l.filesz == m.length
  {
    hide OffsetOf, HostAt;
    HoldsIs(f, blocks[k], m.phys);
    HostAtIndex(blocks, k, m.phys);
    HoldsIs(f, blocks[at], m.phys);
    OneBlock(blocks, at, k, m.phys);
  }

  /**
    dump-guest-memory. The headers take the room announced for them and memory follows, block by block. Each program
    header's part of the file holds the guest's bytes from the header's physical address on; and when the mappings come
    from the blocks, every byte of RAM in the range is in such a part.
   */
  method DumpGuestMemory(view: seq<FlatRange>, ramPtr: RegionId -> Option<int>, host: int -> Byte, filter: Filter,
                         paging: Option<seq<Mapping>>, elf64: bool, noteSize: nat)
    returns (s: DumpState, ok: bool)
    requires WellFormed(view) && |view| <= UINT32_MAX && (filter.All? ==> exists a :: RamAt(view, ramPtr, a).Some?)
    requires paging.Some? ==> |paging.value| <= UINT32_MAX && MappingsOk(paging.value)
    ensures Represents(s.blocks, view, ramPtr)
    ensures filter.All? || filter.length > 0 ==> (ok <==> exists a :: Stored(filter, s.blocks, a))
    ensures ok ==>
              && Ascending(s.blocks)
              && s.list == Chosen(filter, if paging.Some? then paging.value else MappingsOf(s.blocks))
              && Announced(|s.list|, s.haveSection, s.phdrNum, s.shInfo)
    ensures ok ==>
              && s.head == HeadBytes(elf64, |s.loads|, s.haveSection, noteSize)
              && s.memory == Memory(host, filter, s.blocks, |s.blocks|)
    ensures ok ==>
              && |s.loads| == LoadCount(|s.list|)
              && forall i :: 0 <= i < |s.loads| ==> LoadOk(s.loads[i], s.list[i], filter, s.blocks)
    ensures ok ==> forall i :: 0 <= i < |s.loads| ==> Faithful(s.loads[i], s.head, s.memory, view, ramPtr, host)
    ensures ok ==> |s.phdrs| == |s.loads| && forall i :: 0 <= i < |s.loads| ==> s.phdrs[i] == Encoded(elf64, s.loads[i])
    ensures ok ==>
              forall i :: 0 <= i < |s.loads| && FieldsFit(elf64, s.loads[i]) ==>
                ReadsBack(s.phdrs[i], s.head, s.memory, view, ramPtr, host)
    ensures ok && paging.None? && |s.list| < UINT32_MAX ==>
              forall a :: Stored(filter, s.blocks, a) ==> SomeInFile(s.loads, a)
  {
    hide WellFormed, Ascending, RamAt, MappingsOk, Stored, LoadOk, LoadPoints, Faithful, Filtered, Memory, SomeInFile,
         Represents, HeadBytes, Encoded, FieldsFit, ReadsBack;
    s := new DumpState(host, filter, elf64, noteSize);
    ok := s.Init(view, ramPtr, paging);
    if !ok {
      return;
    }
    ghost var at := s.Begin();
    s.Iterate();
    forall i | 0 <= i < |s.loads| ensures Faithful(s.loads[i], s.head, s.memory, view, ramPtr, host) {
      LoadFaithful(s.loads[i], filter, s.blocks, s.memoryOffset, at[i], host, view, ramPtr);
    }
    forall i | 0 <= i < |s.loads| && FieldsFit(elf64, s.loads[i])
      ensures ReadsBack(s.phdrs[i], s.head, s.memory, view, ramPtr, host)
    {
      FitsReadsBack(elf64, s.loads[i], s.head, s.memory, view, ramPtr, host);
    }
    if paging.None? && |s.list| < UINT32_MAX {
      forall a | Stored(filter, s.blocks, a) ensures SomeInFile(s.loads, a) {
        AllDumped(filter, s.blocks, s.memoryOffset, s.loads, at, a);
      }
    }
  }

  lemma HostBytesNone(host: int -> Byte, addr: int)
    ensures HostBytes(host, addr, 0) == []
  {
  }

  lemma MemoryNone(host: int -> Byte, f: Filter, blocks: seq<PhysBlock>)
    requires Ascending(blocks)
    ensures Memory(host, f, blocks, 0) == []
  {
  }

  function Pages(i: nat): nat { i * TARGET_PAGE_SIZE }

  lemma PagesNext(i: nat)
    ensures Pages(i + 1) == Pages(i) + TARGET_PAGE_SIZE
  {
    MulDistribute(i, 1, TARGET_PAGE_SIZE);
  }

  lemma PagesAll(size: nat)
    ensures Pages(0) == 0 && Pages(size / TARGET_PAGE_SIZE) + size % TARGET_PAGE_SIZE == size
  {
  }
}
