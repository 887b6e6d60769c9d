/** The softmmu TLB with large pages: page flushes and the large-page flush region (cputlb.c). */
module Tlb {
  import opened Common

  /** A target_ulong. */
  type Word = bv64

  const NONE: Word := 0xFFFF_FFFF_FFFF_FFFF

  /** A page has room for the flags below, and no target has pages above 8K. */
  type PageBits = k: Word | 10 <= k <= 13 witness 12
  const TARGET_PAGE_BITS: PageBits
  const PAGE_MASK: Word := NONE << TARGET_PAGE_BITS
  const PAGE_SIZE: Word := !PAGE_MASK + 1

  const TLB_INVALID_MASK: Word := 0x8
  const TLB_NOTDIRTY: Word := 0x10
  const TLB_MMIO: Word := 0x20
  const CPU_TLB_SIZE: nat := 256
  const INDEX_MASK: Word := 0xFF

  predicate OnPage(a: Word)
  {
    a & !PAGE_MASK == 0
  }

  lemma PageMaskIs()
    ensures IsMask(PAGE_MASK) && PAGE_MASK & 0x3F == 0 && PAGE_MASK != 0
  {
    ShiftedIs(TARGET_PAGE_BITS);
  }

  lemma ShiftedIs(k: Word)
    requires 10 <= k <= 13
    ensures var m := (0xFFFF_FFFF_FFFF_FFFF as Word) << k; IsMask(m) && m & 0x3F == 0 && m != 0
  {
  }

  // ---------------------------------------------------------------- masks

  /** Ones above some bit, zeros below it. */
  predicate IsMask(m: Word)
  {
    !m & (!m + 1) == 0
  }

  /** Every bit of `f` is a bit of `m`: the aligned region `f` selects is at least as large. */
  predicate Within(f: Word, m: Word)
  {
    f & !m == 0
  }

  predicate PowerOfTwo(size: Word)
  {
    size != 0 && size & (size - 1) == 0
  }

  function MaskOf(size: Word): Word { !(size - 1) }

  lemma MaskOfIsMask(size: Word)
    requires PowerOfTwo(size)
    ensures IsMask(MaskOf(size))
  {
  }

  lemma AndIsMask(m: Word, n: Word)
    requires IsMask(m) && IsMask(n)
    ensures IsMask(m & n) && Within(m & n, m) && Within(m & n, n)
  {
  }

  lemma ShiftIsMask(m: Word)
    requires IsMask(m)
    ensures IsMask(m << 1) && Within(m << 1, m)
    ensures m != 0 ==> m << 1 < m
  {
  }

  /** A coarser mask agrees wherever a finer one does. */
  lemma Coarser(f: Word, m: Word, a: Word, b: Word)
    requires Within(f, m) && And(a, m) == And(b, m)
    ensures And(a, f) == And(b, f)
  {
  }

  /** Between a mask and the next there is none. */
  lemma NextMask(n: Word, m: Word)
    requires IsMask(n) && IsMask(m) && Within(n, m) && n != m
    ensures Within(n, Doubled(m))
  {
  }

  lemma MaskOfLarge(size: Word)
    requires PowerOfTwo(size) && PAGE_SIZE <= size
    ensures IsMask(MaskOf(size)) && Within(MaskOf(size), PAGE_MASK)
  {
    hide PAGE_MASK;
    PageMaskIs();
    LargeMask(size, PAGE_MASK);
  }

  lemma LargeMask(size: Word, m: Word)
    requires IsMask(m) && m != 0 && PowerOfTwo(size) && !m + 1 <= size
    ensures IsMask(MaskOf(size)) && Within(MaskOf(size), m)
  {
  }

  lemma SmallMask(m: Word)
    ensures MaskOf(!m + 1) == m
  {
  }

  lemma PageMaskOf()
    ensures MaskOf(PAGE_SIZE) == PAGE_MASK
  {
    SmallMask(PAGE_MASK);
  }

  lemma AlignedAnd(v: Word, m: Word)
    requires v & !m == 0
    ensures And(v, m) == v
  {
  }

  lemma TagMasked(v: Word, f: Word, m: Word)
    requires v & !m == 0 && m & 0x3F == 0 && f & 0xFFFF_FFFF_FFFF_FFCF == 0
    ensures (v | f) & (m | 0x8) == v
  {
  }

  lemma NoneMasked(v: Word, m: Word)
    requires v & !m == 0 && m & 0x3F == 0
    ensures (0xFFFF_FFFF_FFFF_FFFF as Word) & (m | 0x8) != v && v != 0xFFFF_FFFF_FFFF_FFFF
  {
  }

  lemma NotNone(addr: Word, mask: Word, m: Word)
    requires Within(mask, m) && addr & !mask == 0 && m & 0x3F == 0
    ensures addr != 0xFFFF_FFFF_FFFF_FFFF
  {
  }

  // ---------------------------------------------------------------- entries

  /** What one call of tlb_set_page maps: a page of the guest, of which the TLB holds one TARGET_PAGE_SIZE piece. */
  datatype Mapping = Mapping(vaddr: Word, size: Word) {
    predicate Ok() { OnPage(vaddr) && PowerOfTwo(size) && PAGE_SIZE <= size }

    predicate Large() { size != PAGE_SIZE }

    /** The address is in the guest page, not just in the piece. */
    predicate Contains(a: Word) { And(a, MaskOf(size)) == And(vaddr, MaskOf(size)) }
  }

  datatype Entry = Entry(read: Word, write: Word, code: Word) {
    /** What tlb_flush_entry looks for. */
    predicate Matches(page: Word) { Hit(read, page) || Hit(write, page) || Hit(code, page) }
  }

  const EMPTY := Entry(NONE, NONE, NONE)

  /** A lookup of the page succeeds with this tag. */
  predicate Hit(tag: Word, page: Word)
  {
    page == tag & (PAGE_MASK | TLB_INVALID_MASK)
  }

  /** The slot of a page: the low eight bits of its number. */
  function Index(a: Word): nat
  {
    (Number(a, TARGET_PAGE_BITS) & INDEX_MASK) as bv8 as nat
  }

  lemma IndexBound(a: Word)
    ensures Index(a) < CPU_TLB_SIZE && Index(And(a, PAGE_MASK)) == Index(a)
  {
    PageNumber(a, TARGET_PAGE_BITS);
  }

  /** Two addresses share a slot exactly when their page numbers agree in the low eight bits. */
  lemma IndexSame(a: Word, b: Word)
    ensures Index(a) == Index(b) <==> And(a >> TARGET_PAGE_BITS, 0xFF) == And(b >> TARGET_PAGE_BITS, 0xFF)
  {
    ByteSame(a >> TARGET_PAGE_BITS, b >> TARGET_PAGE_BITS);
  }

  lemma ByteSame(x: Word, y: Word)
    ensures (x & 0xFF) as bv8 as nat == (y & 0xFF) as bv8 as nat <==> And(x, 0xFF) == And(y, 0xFF)
  {
    ByteInjective((x & 0xFF) as bv8, (y & 0xFF) as bv8);
  }

  lemma ByteInjective(x: bv8, y: bv8)
    ensures x as nat == y as nat <==> x == y
  {
    if x as nat == y as nat { assert (x as nat) as bv8 == (y as nat) as bv8; }
  }

  function Number(a: Word, k: Word): Word
    requires 10 <= k <= 13
  {
    a >> k
  }

  lemma PageNumber(a: Word, k: Word)
    requires 10 <= k <= 13
    ensures Number(a & ((0xFFFF_FFFF_FFFF_FFFF as Word) << k), k) == Number(a, k)
  {
    hide Number;
    if k == 10 {
      Number10(a, k);
    } else if k == 11 {
      Number11(a, k);
    } else if k == 12 {
      Number12(a, k);
    } else {
      Number13(a, k);
    }
  }

  lemma Number10(a: Word, k: Word)
    requires k == 10
    ensures Number(a & ((0xFFFF_FFFF_FFFF_FFFF as Word) << k), k) == Number(a, k)
  {
  }

  lemma Number11(a: Word, k: Word)
    requires k == 11
    ensures Number(a & ((0xFFFF_FFFF_FFFF_FFFF as Word) << k), k) == Number(a, k)
  {
  }

  lemma Number12(a: Word, k: Word)
    requires k == 12
    ensures Number(a & ((0xFFFF_FFFF_FFFF_FFFF as Word) << k), k) == Number(a, k)
  {
  }

  lemma Number13(a: Word, k: Word)
    requires k == 13
    ensures Number(a & ((0xFFFF_FFFF_FFFF_FFFF as Word) << k), k) == Number(a, k)
  {
  }

  /** The facts about the memory behind a page that decide how it may be accessed. */
  datatype Section = Section(ram: bool, romd: bool, readonly: bool, dirty: bool, watched: bool)

  datatype Prot = Prot(read: bool, write: bool, exec: bool)

  function Or(x: Word, y: Word): Word { x | y }

  function Flag(on: bool, f: Word): Word { if on then f else 0 }

  /** The entry tlb_set_page writes. */
  function EntryFor(vaddr: Word, prot: Prot, s: Section): Entry
  {
    var code := Flag(!s.ram && !s.romd, TLB_MMIO);
    var flags := Or(code, Flag(s.watched, TLB_MMIO));
    var write := if (s.ram && s.readonly) || s.romd then TLB_MMIO else Flag(s.ram && !s.dirty, TLB_NOTDIRTY);
    Entry(if prot.read then Or(vaddr, flags) else NONE,
          if prot.write then Or(vaddr, Or(flags, write)) else NONE,
          if prot.exec then Or(vaddr, code) else NONE)
  }

  /** A tag in a slot belongs to the page at `vaddr`, or to none. */
  predicate Tagged(tag: Word, vaddr: Word)
  {
    tag == NONE || Hit(tag, vaddr)
  }

  /** Accesses the protection allows hit, all others miss; only plain dirty RAM is written without further ado. */
  lemma EntryForIs(vaddr: Word, prot: Prot, s: Section)
    requires OnPage(vaddr)
    ensures var e := EntryFor(vaddr, prot, s);
            && Tagged(e.read, vaddr) && Tagged(e.write, vaddr) && Tagged(e.code, vaddr)
            && (Hit(e.read, vaddr) <==> prot.read) && (Hit(e.write, vaddr) <==> prot.write)
            && (Hit(e.code, vaddr) <==> prot.exec)
            && (e.write == vaddr <==> prot.write && s.ram && !s.readonly && !s.romd && s.dirty && !s.watched)
  {
    hide Hit, Tagged, IsFlags, Flag, Or, OnPage;
    FlagIs(!s.ram && !s.romd, s.watched, s.ram && !s.dirty);
    var code := Flag(!s.ram && !s.romd, TLB_MMIO);
    var flags := Or(code, Flag(s.watched, TLB_MMIO));
    var write := if (s.ram && s.readonly) || s.romd then TLB_MMIO else Flag(s.ram && !s.dirty, TLB_NOTDIRTY);
    FlagsOr(code, Flag(s.watched, TLB_MMIO));
    FlagsOr(flags, write);
    FlagsHit(vaddr, code);
    FlagsHit(vaddr, flags);
    FlagsHit(vaddr, Or(flags, write));
    NoneMisses(vaddr);
  }

  /** The tag sends an access that hits it to the I/O callbacks, or to the code that marks a page dirty. */
  predicate Has(tag: Word, flag: Word) { tag & flag != 0 }

  /**
    Where accesses go that the protection allows. Reads and writes of I/O and of watched pages go to the callbacks; so
    do writes to ROM and to ROM devices, which are read and executed directly. Writes to other RAM pass the code that
    marks it dirty exactly while it is clean. Code is fetched directly from all but I/O, watched or not.
   */
  lemma EntryFlags(vaddr: Word, prot: Prot, s: Section)
    requires OnPage(vaddr)
    ensures var e, io := EntryFor(vaddr, prot, s), !s.ram && !s.romd;
            && (prot.read ==> (Has(e.read, 0x20) <==> io || s.watched) && !Has(e.read, 0x10))
            && (prot.exec ==> (Has(e.code, 0x20) <==> io) && !Has(e.code, 0x10))
            && (prot.write ==> (Has(e.write, 0x20) <==> io || s.watched || (s.ram && s.readonly) || s.romd))
            && (prot.write ==> (Has(e.write, 0x10) <==> s.ram && !s.readonly && !s.romd && !s.dirty))
    ensures var e := EntryFor(vaddr, prot, s);
            && (prot.read && !Has(e.read, 0x20) ==> e.read == vaddr)
            && (prot.exec && !Has(e.code, 0x20) ==> e.code == vaddr)
            && (prot.write && !Has(e.write, 0x20) && !Has(e.write, 0x10) ==> e.write == vaddr)
  {
    hide OnPage, Or, Has, Flag, LowClear, PAGE_MASK;
    NoFlags(vaddr);
    var io := !s.ram && !s.romd;
    var rom := (s.ram && s.readonly) || s.romd;
    TwoFlags(io, s.watched, vaddr);
    WriteFlags(io, s.watched, rom, s.ram && !s.dirty, vaddr);
  }

  predicate LowClear(v: Word) { v & 0x3F == 0 }

  lemma NoFlags(v: Word)
    requires OnPage(v)
    ensures LowClear(v)
  {
    hide PAGE_MASK;
    PageMaskIs();
    ClearBelow(v, PAGE_MASK);
  }

  lemma ClearBelow(v: Word, m: Word)
    requires v & !m == 0 && m & 0x3F == 0
    ensures v & 0x3F == 0
  {
  }

  lemma TwoFlags(x: bool, y: bool, v: Word)
    requires LowClear(v)
    ensures var t := Or(v, Or(Flag(x, TLB_MMIO), Flag(y, TLB_MMIO)));
            (Has(t, 0x20) <==> x || y) && !Has(t, 0x10) && (!x && !y ==> t == v)
    ensures var t := Or(v, Flag(x, TLB_MMIO)); (Has(t, 0x20) <==> x) && !Has(t, 0x10) && (!x ==> t == v)
  {
  }

  lemma WriteFlags(x: bool, y: bool, rom: bool, clean: bool, v: Word)
    requires LowClear(v)
    ensures var t := Or(v, Or(Or(Flag(x, TLB_MMIO), Flag(y, TLB_MMIO)),
                              if rom then TLB_MMIO else Flag(clean, TLB_NOTDIRTY)));
            && (Has(t, 0x20) <==> x || y || rom) && (Has(t, 0x10) <==> !rom && clean)
            && (!x && !y && !rom && !clean ==> t == v)
  {
  }

  lemma FlagIs(x: bool, y: bool, z: bool)
    ensures IsFlags(Flag(x, TLB_MMIO)) && IsFlags(Flag(y, TLB_MMIO)) && IsFlags(Flag(z, TLB_NOTDIRTY))
            && IsFlags(TLB_MMIO)
    ensures Flag(x, TLB_MMIO) == 0 <==> !x
    ensures Flag(y, TLB_MMIO) == 0 <==> !y
    ensures Flag(z, TLB_NOTDIRTY) == 0 <==> !z
    ensures TLB_MMIO != 0
  {
  }

  lemma FlagsHit(vaddr: Word, f: Word)
    requires OnPage(vaddr) && IsFlags(f)
    ensures Hit(Or(vaddr, f), vaddr) && Tagged(Or(vaddr, f), vaddr)
    ensures Or(vaddr, f) == vaddr <==> f == 0
  {
    hide *;
    FlagsMasked(vaddr, f);
    if f != 0 {
      FlagsSeen(vaddr, f);
    } else {
      OrZero(vaddr);
    }
  }

  /** No bits but TLB_NOTDIRTY and TLB_MMIO. */
  predicate IsFlags(f: Word)
  {
    f & 0xFFFF_FFFF_FFFF_FFCF == 0
  }

  lemma FlagsMasked(v: Word, f: Word)
    requires OnPage(v) && IsFlags(f)
    ensures Hit(Or(v, f), v) && Tagged(Or(v, f), v)
  {
    hide PAGE_MASK;
    PageMaskIs();
    TagMasked(v, f, PAGE_MASK);
  }

  lemma FlagsSeen(v: Word, f: Word)
    requires OnPage(v) && IsFlags(f) && f != 0
    ensures Or(v, f) != v
  {
  }

  lemma OrZero(v: Word)
    ensures Or(v, 0) == v
  {
  }

  lemma FlagsOr(f: Word, g: Word)
    requires IsFlags(f) && IsFlags(g)
    ensures IsFlags(Or(f, g)) && (Or(f, g) == 0 <==> f == 0 && g == 0)
  {
  }

  lemma NoneMisses(vaddr: Word)
    requires OnPage(vaddr)
    ensures !Hit(NONE, vaddr) && Tagged(NONE, vaddr) && vaddr != NONE
  {
    hide PAGE_MASK;
    PageMaskIs();
    NoneMasked(vaddr, PAGE_MASK);
  }

  /** A page hits a tag exactly when the tag is that page's. */
  lemma HitIs(tag: Word, vaddr: Word, page: Word)
    requires Tagged(tag, vaddr) && OnPage(page)
    ensures Hit(tag, page) <==> tag != NONE && page == vaddr
  {
    hide PAGE_MASK;
    PageMaskIs();
    NoneMasked(page, PAGE_MASK);
  }

  lemma EmptyMisses(page: Word)
    requires OnPage(page)
    ensures !EMPTY.Matches(page)
  {
    hide PAGE_MASK;
    PageMaskIs();
    NoneMasked(page, PAGE_MASK);
  }

  /** A small mapping is its one piece. */
  lemma SmallContains(m: Mapping, a: Word)
    requires m.Ok() && !m.Large()
    ensures m.Contains(a) <==> And(a, PAGE_MASK) == m.vaddr
  {
    hide PAGE_MASK, PAGE_SIZE, MaskOf, PowerOfTwo, And;
    PageMaskOf();
    AlignedAnd(m.vaddr, PAGE_MASK);
  }

  // ---------------------------------------------------------------- the flush region

  /** Every large mapping lies in the region, which is empty when there are none. */
  ghost predicate RegionOk(addr: Word, mask: Word, large: set<Mapping>)
  {
    if large == {} then addr == NONE && mask == 0
    else
      && IsMask(mask) && Within(mask, PAGE_MASK) && addr & !mask == 0
      && forall m <- large :: m.Ok() && Inside(m, addr, mask)
  }

  predicate Inside(m: Mapping, addr: Word, mask: Word)
  {
    Within(mask, MaskOf(m.size)) && And(m.vaddr, mask) == addr
  }

  /** `n` selects a region around both the old region and the new page. */
  predicate Around(n: Word, addr: Word, mask: Word, m: Mapping)
  {
    IsMask(n) && Within(n, mask) && Within(n, MaskOf(m.size)) && And(addr, n) == And(m.vaddr, n)
  }

  lemma RegionMarked(addr: Word, mask: Word, large: set<Mapping>)
    requires RegionOk(addr, mask, large)
    ensures addr == NONE <==> large == {}
    ensures large != {} ==> IsMask(mask)
  {
    hide PAGE_MASK;
    PageMaskIs();
    if large != {} { NotNone(addr, mask, PAGE_MASK); }
  }

  /** An address of a large mapping is in the region. */
  lemma RegionHit(addr: Word, mask: Word, large: set<Mapping>, m: Mapping, a: Word)
    requires RegionOk(addr, mask, large) && m in large && m.Contains(a)
    ensures And(a, mask) == addr
  {
    hide And, Within, MaskOf, IsMask, PAGE_MASK, Mapping.Ok;
    Coarser(mask, MaskOf(m.size), a, m.vaddr);
  }

  /** The region stays a region when it is made coarser and the new page is taken in. */
  lemma RegionGrows(addr: Word, mask: Word, large: set<Mapping>, m: Mapping, n: Word)
    requires RegionOk(addr, mask, large) && large != {} && m.Ok() && Around(n, addr, mask, m)
    ensures RegionOk(And(addr, n), n, large + {m})
  {
    hide PAGE_MASK, IsMask, Within, MaskOf, Mapping.Ok;
    forall x <- large ensures x.Ok() && Inside(x, And(addr, n), n) {
      InsideCoarser(x, addr, mask, n);
    }
    WithinWithin(n, mask, PAGE_MASK);
    AndClear(addr, n);
    assert m in large + {m};
  }

  lemma AndClear(a: Word, n: Word)
    ensures And(a, n) & !n == 0
  {
  }

  lemma InsideCoarser(x: Mapping, addr: Word, mask: Word, n: Word)
    requires Inside(x, addr, mask) && Within(n, mask)
    ensures Inside(x, And(addr, n), n)
  {
    hide Within, MaskOf, And;
    WithinWithin(n, mask, MaskOf(x.size));
    AndWithin(n, mask, x.vaddr);
  }

  lemma WithinWithin(n: Word, f: Word, m: Word)
    requires Within(n, f) && Within(f, m)
    ensures Within(n, m)
  {
  }

  lemma AndWithin(n: Word, f: Word, v: Word)
    requires Within(n, f)
    ensures And(And(v, f), n) == And(v, n)
  {
  }

  lemma RegionStarts(m: Mapping)
    requires m.Ok()
    ensures RegionOk(And(m.vaddr, MaskOf(m.size)), MaskOf(m.size), {m})
  {
    MaskOfLarge(m.size);
    var mask := MaskOf(m.size);
    assert (m.vaddr & mask) & !mask == 0;
  }

  // ---------------------------------------------------------------- the TLB

  /** What the invariant says of one slot: it is empty, or holds a piece of `owner` that belongs there. */
  ghost predicate SlotOk(e: Entry, i: nat, owner: Option<Mapping>, large: set<Mapping>)
  {
    match owner
    case None => e == EMPTY
    case Some(m) =>
      && m.Ok() && Index(m.vaddr) == i && (m.Large() ==> m in large)
      && Tagged(e.read, m.vaddr) && Tagged(e.write, m.vaddr) && Tagged(e.code, m.vaddr)
  }

  function Flushed(e: Entry, page: Word): Entry
  {
    if e.Matches(page) then EMPTY else e
  }

  lemma FlushedOk(e: Entry, i: nat, owner: Option<Mapping>, large: set<Mapping>, page: Word)
    requires SlotOk(e, i, owner, large)
    ensures SlotOk(Flushed(e, page), i, if e.Matches(page) then None else owner, large)
  {
  }

  /** A page flush leaves the entries of all other pages alone. */
  lemma FlushedKeeps(e: Entry, i: nat, m: Mapping, large: set<Mapping>, page: Word)
    requires SlotOk(e, i, Some(m), large) && OnPage(page) && page != m.vaddr
    ensures Flushed(e, page) == e
  {
    hide Hit, Tagged, Index, OnPage, Mapping.Ok;
    HitIs(e.read, m.vaddr, page);
    HitIs(e.write, m.vaddr, page);
    HitIs(e.code, m.vaddr, page);
  }

  lemma PageOnPage(a: Word)
    ensures OnPage(And(a, PAGE_MASK))
  {
    AndClear(a, PAGE_MASK);
  }

  /** After the page's slots are flushed no live slot belongs to a mapping with the address. */
  lemma FlushedGone(e: Entry, i: nat, m: Mapping, large: set<Mapping>, addr: Word, mask: Word, a: Word)
    requires SlotOk(e, i, Some(m), large) && RegionOk(addr, mask, large) && And(a, mask) != addr
    requires i == Index(a) ==> !e.Matches(And(a, PAGE_MASK))
    requires e != EMPTY
    ensures !m.Contains(a)
  {
    hide IsMask, Within, RegionOk, Index, And, Hit, PAGE_MASK, OnPage, Mapping.Contains;
    PageOnPage(a);
    if m.Large() {
      if m.Contains(a) { RegionHit(addr, mask, large, m, a); }
    } else {
      SmallContains(m, a);
      IndexBound(a);
      HitIs(e.read, m.vaddr, And(a, PAGE_MASK));
      HitIs(e.write, m.vaddr, And(a, PAGE_MASK));
      HitIs(e.code, m.vaddr, And(a, PAGE_MASK));
    }
  }

  /** How the invariant sees who filled a slot. */
  function Owner(owners: map<(nat, nat), Mapping>, mode: nat, i: nat): Option<Mapping>
  {
    if (mode, i) in owners then Some(owners[(mode, i)]) else None
  }

  /** Slots may have been emptied, but no slot has changed hands. */
  predicate Kept(before: map<(nat, nat), Mapping>, after: map<(nat, nat), Mapping>)
  {
    forall x <- after :: x in before && before[x] == after[x]
  }

  /** The TLB part of a CPU; `owners` and `large` remember what tlb_set_page was asked for. */
  class CpuTlb {
    const table: array2<Entry>
    var flushAddr: Word
    var flushMask: Word
    ghost var owners: map<(nat, nat), Mapping>
    ghost var large: set<Mapping>

    ghost predicate SlotsOk()
      reads this, table
    {
      && table.Length1 == CPU_TLB_SIZE
      && forall mode, i :: 0 <= mode < table.Length0 && 0 <= i < CPU_TLB_SIZE ==>
           SlotOk(table[mode, i], i, Owner(owners, mode, i), large)
    }

    ghost predicate Valid()
      reads this, table
    {
      SlotsOk() && RegionOk(flushAddr, flushMask, large)
    }

    /** No slot holds a live piece of a mapping that contains the address. */
    ghost predicate Gone(a: Word)
      requires table.Length1 == CPU_TLB_SIZE
      reads this, table
    {
      forall mode, i ::
        0 <= mode < table.Length0 && 0 <= i < CPU_TLB_SIZE && table[mode, i] != EMPTY && (mode, i) in owners ==>
          !owners[(mode, i)].Contains(a)
    }

    constructor (modes: nat)
      ensures Valid() && fresh(table) && table.Length0 == modes && owners == map[] && large == {}
    {
      table := new Entry[modes, CPU_TLB_SIZE]((mode, i) => EMPTY);
      flushAddr, flushMask, owners, large := NONE, 0, map[], {};
    }

    /** tlb_flush. */
    method Flush()
      requires table.Length1 == CPU_TLB_SIZE
      modifies this, table
      ensures Valid() && owners == map[] && large == {}
      ensures forall mode, i :: 0 <= mode < table.Length0 && 0 <= i < CPU_TLB_SIZE ==> table[mode, i] == EMPTY
    {
      for i := 0 to CPU_TLB_SIZE
        invariant forall mode, k :: 0 <= mode < table.Length0 && 0 <= k < i ==> table[mode, k] == EMPTY
      {
        for mode := 0 to table.Length0
          invariant forall m, k :: 0 <= m < table.Length0 && 0 <= k < i ==> table[m, k] == EMPTY
          invariant forall m :: 0 <= m < mode ==> table[m, i] == EMPTY
        {
          table[mode, i] := EMPTY;
        }
      }
      flushAddr, flushMask, owners, large := NONE, 0, map[], {};
    }

    /** tlb_flush_page: afterwards nothing of any mapping that contains the address is left. */
    method FlushPage(addr: Word)
      requires Valid()
      modifies this, table
      ensures Valid() && Gone(addr) && Kept(old(owners), owners)
      ensures old(And(addr, flushMask) == flushAddr) ==> owners == map[] && large == {}
      ensures old(And(addr, flushMask) != flushAddr) ==>
                flushAddr == old(flushAddr) && flushMask == old(flushMask) && large == old(large)
      ensures old(And(addr, flushMask) != flushAddr) ==>
                forall mode, i :: 0 <= mode < table.Length0 && 0 <= i < CPU_TLB_SIZE ==>
                  table[mode, i] ==
                  if i == Index(addr) then Flushed(old(table[mode, i]), And(addr, PAGE_MASK)) else old(table[mode, i])
      ensures old(And(addr, flushMask) != flushAddr) ==>
                forall mode, i :: 0 <= mode < table.Length0 && 0 <= i < CPU_TLB_SIZE && (mode, i) in old(owners)
                                  && old(owners)[(mode, i)].vaddr != And(addr, PAGE_MASK) ==>
                  table[mode, i] == old(table[mode, i])
    {
      hide RegionOk, SlotOk, Hit, Flushed, Index, Mapping.Contains;
      IndexBound(addr);
      if And(addr, flushMask) == flushAddr {
        Flush();
        return;
      }
      FlushModes(And(addr, PAGE_MASK), Index(addr));
      forall mode | 0 <= mode < table.Length0 ensures !table[mode, Index(addr)].Matches(And(addr, PAGE_MASK)) {
        FlushedMisses(old(table[mode, Index(addr)]), addr);
      }
      AllGone(addr);
      PageOnPage(addr);
      forall mode, i | 0 <= mode < table.Length0 && 0 <= i < CPU_TLB_SIZE && (mode, i) in old(owners)
                       && old(owners)[(mode, i)].vaddr != And(addr, PAGE_MASK)
        ensures table[mode, i] == old(table[mode, i])
      {
        FlushedKeeps(old(table[mode, i]), i, old(owners)[(mode, i)], old(large), And(addr, PAGE_MASK));
      }
    }

    /** The loop of tlb_flush_page over the MMU modes. */
    method FlushModes(page: Word, at: nat)
      requires Valid() && at < CPU_TLB_SIZE
      modifies table, `owners
      ensures Valid() && Kept(old(owners), owners)
      ensures forall mode, i :: 0 <= mode < table.Length0 && 0 <= i < CPU_TLB_SIZE ==>
                table[mode, i] == if i == at then Flushed(old(table[mode, i]), page) else old(table[mode, i])
    {
      hide RegionOk, SlotOk, IsMask, Within;
      for mode := 0 to table.Length0
        invariant Valid() && Kept(old(owners), owners)
        invariant forall m, i :: 0 <= m < table.Length0 && 0 <= i < CPU_TLB_SIZE ==>
                    table[m, i] == if i == at && m < mode then Flushed(old(table[m, i]), page) else old(table[m, i])
      {
        FlushSlot(mode, at, page);
      }
    }

    /** tlb_flush_entry on one slot. */
    method FlushSlot(mode: nat, at: nat, page: Word)
      requires Valid() && at < CPU_TLB_SIZE && mode < table.Length0
      modifies table, `owners
      ensures Valid() && Kept(old(owners), owners)
      ensures forall m, i :: 0 <= m < table.Length0 && 0 <= i < CPU_TLB_SIZE ==>
                table[m, i] == if i == at && m == mode then Flushed(old(table[m, i]), page) else old(table[m, i])
    {
      hide RegionOk, SlotOk, IsMask, Within, Hit, Flushed;
      FlushedOk(table[mode, at], at, Owner(owners, mode, at), large, page);
      FlushedIs(table[mode, at], page);
      if table[mode, at].Matches(page) {
        table[mode, at] := EMPTY;
        owners := map x | x in owners && x != (mode, at) :: owners[x];
      }
    }

    lemma AllGone(a: Word)
      requires Valid() && And(a, flushMask) != flushAddr && Index(a) < CPU_TLB_SIZE
      requires forall mode :: 0 <= mode < table.Length0 ==> !table[mode, Index(a)].Matches(And(a, PAGE_MASK))
      ensures Gone(a)
    {
      hide RegionOk, SlotOk, Hit, Index, Mapping.Contains, And;
      forall mode, i | 0 <= mode < table.Length0 && 0 <= i < CPU_TLB_SIZE
                       && table[mode, i] != EMPTY && (mode, i) in owners
        ensures !owners[(mode, i)].Contains(a)
      {
        FlushedGone(table[mode, i], i, owners[(mode, i)], large, flushAddr, flushMask, a);
      }
    }

    /** tlb_add_large_page: the region becomes the smallest one around itself and the new page. */
    method AddLargePage(vaddr: Word, size: Word)
      requires RegionOk(flushAddr, flushMask, large) && Mapping(vaddr, size).Ok()
      modifies `flushAddr, `flushMask, `large
      ensures RegionOk(flushAddr, flushMask, large) && large == old(large) + {Mapping(vaddr, size)}
      ensures old(large) == {} ==> flushMask == MaskOf(size)
      ensures old(large) != {} ==>
                && Around(flushMask, old(flushAddr), old(flushMask), Mapping(vaddr, size))
                && Widening(flushMask, old(flushAddr), old(flushMask), Mapping(vaddr, size))
    {
      hide *;
      var m := Mapping(vaddr, size);
      RegionMarked(flushAddr, flushMask, large);
      if flushAddr == NONE {
        RegionStarts(m);
        flushAddr, flushMask, large := And(vaddr, MaskOf(size)), MaskOf(size), {m};
        return;
      }
      var mask := Widen(flushAddr, flushMask, m);
      RegionGrows(flushAddr, flushMask, large, m, mask);
      flushAddr, flushMask, large := And(flushAddr, mask), mask, large + {m};
    }

    /** tlb_set_page. */
    method SetPage(vaddr: Word, size: Word, mode: nat, prot: Prot, section: Section)
      requires Valid() && Mapping(vaddr, size).Ok() && mode < table.Length0
      modifies this, table
      ensures Valid() && owners == old(owners)[(mode, Index(vaddr)) := Mapping(vaddr, size)]
      ensures large == if size == PAGE_SIZE then old(large) else old(large) + {Mapping(vaddr, size)}
      ensures size == PAGE_SIZE ==> flushAddr == old(flushAddr) && flushMask == old(flushMask)
      ensures forall md, i :: 0 <= md < table.Length0 && 0 <= i < CPU_TLB_SIZE ==>
                table[md, i] ==
                if md == mode && i == Index(vaddr) then EntryFor(vaddr, prot, section) else old(table[md, i])
    {
      hide RegionOk, SlotOk, Index, EntryFor, Around, Widening, Mapping.Ok;
      IndexBound(vaddr);
      SetPageOk(vaddr, size, prot, section, large);
      if size != PAGE_SIZE {
        AddLargePage(vaddr, size);
      }
      table[mode, Index(vaddr)] := EntryFor(vaddr, prot, section);
      owners := owners[(mode, Index(vaddr)) := Mapping(vaddr, size)];
    }
  }

  /** The new entry is right for its slot, and a longer memory of large mappings harms no slot. */
  lemma SetPageOk(vaddr: Word, size: Word, prot: Prot, section: Section, large: set<Mapping>)
    requires Mapping(vaddr, size).Ok()
    ensures var m := Mapping(vaddr, size);
            && SlotOk(EntryFor(vaddr, prot, section), Index(vaddr), Some(m),
                      if size == PAGE_SIZE then large else large + {m})
            && forall e, i, o :: SlotOk(e, i, o, large) ==> SlotOk(e, i, o, large + {m})
  {
    EntryForIs(vaddr, prot, section);
    hide Hit, Tagged, EntryFor, Index, PowerOfTwo, OnPage;
  }

  lemma FlushedMisses(e: Entry, a: Word)
    ensures !Flushed(e, And(a, PAGE_MASK)).Matches(And(a, PAGE_MASK))
  {
    PageOnPage(a);
    EmptyMisses(And(a, PAGE_MASK));
  }

  lemma FlushedIs(e: Entry, page: Word)
    ensures Flushed(e, page) == if e.Matches(page) then EMPTY else e
  {
  }

  lemma Agree(a: Word, b: Word, r: Word)
    ensures !Differ(a, b, r) <==> And(a, r) == And(b, r)
  {
    if And(a, r) == And(b, r) { SameNotDiffer(a, b, r); } else { OtherDiffer(a, b, r); }
  }

  lemma SameNotDiffer(a: Word, b: Word, r: Word)
    requires a & r == b & r
    ensures !Differ(a, b, r)
  {
  }

  lemma OtherDiffer(a: Word, b: Word, r: Word)
    requires a & r != b & r
    ensures Differ(a, b, r)
  {
  }

  lemma BothWithin(n: Word, f: Word, m: Word)
    requires Within(n, f) && Within(n, m)
    ensures Within(n, And(m, f))
  {
  }

  /** The two addresses differ in the bits of `r`. */
  predicate Differ(a: Word, b: Word, r: Word)
  {
    (a ^ b) & r != 0
  }

  function And(x: Word, y: Word): Word { x & y }

  function Doubled(r: Word): Word { r << 1 }

  /** `r` is a mask that no region around both is finer than. */
  ghost predicate Widening(r: Word, addr: Word, mask: Word, m: Mapping)
  {
    && IsMask(r) && Within(r, mask) && Within(r, MaskOf(m.size))
    && forall n :: Around(n, addr, mask, m) ==> Within(n, r)
  }

  lemma WidenStart(addr: Word, mask: Word, m: Mapping)
    requires IsMask(mask) && m.Ok()
    ensures Widening(And(MaskOf(m.size), mask), addr, mask, m)
  {
    hide IsMask, Within, MaskOf, PowerOfTwo, And;
    MaskOfIsMask(m.size);
    AndMasks(MaskOf(m.size), mask);
    forall n | Around(n, addr, mask, m) ensures Within(n, And(MaskOf(m.size), mask)) {
      BothWithin(n, mask, MaskOf(m.size));
    }
  }

  lemma AndMasks(m: Word, n: Word)
    requires IsMask(m) && IsMask(n)
    ensures IsMask(And(m, n)) && Within(And(m, n), m) && Within(And(m, n), n)
  {
    AndIsMask(m, n);
  }

  lemma WidenStep(addr: Word, mask: Word, m: Mapping, r: Word)
    requires Widening(r, addr, mask, m) && Differ(addr, m.vaddr, r)
    ensures Widening(Doubled(r), addr, mask, m) && Doubled(r) < r
  {
    hide IsMask, Within, MaskOf, Doubled, Differ, And;
    DoubledIs(addr, m.vaddr, r);
    WithinWithin(Doubled(r), r, mask);
    WithinWithin(Doubled(r), r, MaskOf(m.size));
    forall n | Around(n, addr, mask, m) ensures Within(n, Doubled(r)) {
      Agree(addr, m.vaddr, n);
      NextMask(n, r);
    }
  }

  lemma DoubledIs(a: Word, b: Word, r: Word)
    requires IsMask(r) && Differ(a, b, r)
    ensures IsMask(Doubled(r)) && Within(Doubled(r), r) && Doubled(r) < r
  {
    NotZero(a ^ b, r);
    ShiftIsMask(r);
  }

  lemma NotZero(x: Word, r: Word)
    requires x & r != 0
    ensures r != 0
  {
  }

  lemma WidenEnd(addr: Word, mask: Word, m: Mapping, r: Word)
    requires Widening(r, addr, mask, m) && !Differ(addr, m.vaddr, r)
    ensures Around(r, addr, mask, m)
  {
    Agree(addr, m.vaddr, r);
  }

  /** The loop of tlb_add_large_page. */
  method Widen(addr: Word, mask: Word, m: Mapping) returns (r: Word)
    requires IsMask(mask) && m.Ok()
    ensures Around(r, addr, mask, m) && Widening(r, addr, mask, m)
  {
    hide *;
    r := And(MaskOf(m.size), mask);
    WidenStart(addr, mask, m);
    while Differ(addr, m.vaddr, r)
      invariant Widening(r, addr, mask, m)
      decreases r
    {
      WidenStep(addr, mask, m, r);
      r := Doubled(r);
    }
    WidenEnd(addr, mask, m, r);
  }
}
