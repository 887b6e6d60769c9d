/**
  Building the dispatch table of an address space from the sections of its flat
  view: `phys_section_add`, `register_subpage`, `register_multipage`, `mem_add`,
  `subpage_*` and `address_space_lookup_region` of exec.c.
 */
module Dispatch {
  import opened Common
  import opened Arithmetic
  import opened MemoryRegion
  import opened PhysMap

  /** The region a section refers to: one of the four fixed ones, a guest region, or a page split between sections. */
  datatype SectionRegion = Unassigned | NotDirty | Rom | Watch | Guest(id: RegionId) | Subpage(table: nat)

  /** A MemoryRegionSection: `size` bytes at `address`, backed by `mr` from `offset` on. */
  datatype Section = Section(mr: SectionRegion, address: nat, offset: int, size: nat, readonly: bool) {
    predicate Contains(a: int) { address <= a < address + size }
  }

  /** A subpage_t: the section number of each byte of the page at `base`. */
  datatype SubpageTable = SubpageTable(root: RootId, base: nat, sub: seq<nat>)

  /** What an access to an address reaches. */
  datatype Access = Access(mr: RegionId, offset: int, readonly: bool)

  function Target(s: Section, a: int): Option<Access>
  {
    if s.mr.Guest? then Some(Access(s.mr.id, a - s.address + s.offset, s.readonly)) else None
  }

  function Page(a: nat): nat { a / TARGET_PAGE_SIZE }

  // ---------------------------------------------------------------- invariant

  predicate SubOk(sections: seq<Section>, t: SubpageTable)
  {
    && |t.sub| == TARGET_PAGE_SIZE
    && forall i :: 0 <= i < |t.sub| ==>
         t.sub[i] < |sections| && (sections[t.sub[i]].mr.Unassigned? || sections[t.sub[i]].mr.Guest?)
  }

  /** A page leads to nothing, to its own split table, or to a guest section; only the last through an upper level. */
  predicate PageOk(sections: seq<Section>, subpages: seq<SubpageTable>, d: RootId, page: nat, f: Found)
  {
    && f.section < |sections|
    && match sections[f.section].mr
       case Unassigned => !f.upper
       case Subpage(id) => !f.upper && id < |subpages| && subpages[id].root == d
                           && subpages[id].base == page * TARGET_PAGE_SIZE
       case Guest(_) => true
       case _ => false
  }

  predicate TablesOk(sections: seq<Section>, subpages: seq<SubpageTable>)
  {
    && 0 < |sections| && sections[0].mr == Unassigned
    && forall id :: 0 <= id < |subpages| ==> SubOk(sections, subpages[id])
  }

  /** address_space_lookup_region, given what the page table found. */
  function SectionFor(sections: seq<Section>, subpages: seq<SubpageTable>, f: Found, a: nat): Section
    requires TablesOk(sections, subpages)
    requires f.section < |sections|
    requires sections[f.section].mr.Subpage? ==> sections[f.section].mr.table < |subpages|
  {
    var s := sections[f.section];
    if s.mr.Subpage? then sections[subpages[s.mr.table].sub[a % TARGET_PAGE_SIZE]] else s
  }

  /** The split table with bytes start..end (inclusive) sent to section `n`. */
  function Overwritten(t: SubpageTable, start: int, end: int, n: nat): SubpageTable
  {
    t.(sub := seq(|t.sub|, i requires 0 <= i < |t.sub| => if start <= i <= end then n else t.sub[i]))
  }

  function FreshSubpage(d: RootId, page: nat): SubpageTable
  {
    SubpageTable(d, page * TARGET_PAGE_SIZE, seq(TARGET_PAGE_SIZE, i => SECTION_UNASSIGNED))
  }

  // ---------------------------------------------------------------- the whole index as a value

  datatype Index = Index(nodes: seq<Node>, roots: map<RootId, Entry>, sections: seq<Section>,
                         subpages: seq<SubpageTable>) {

    function Lookup(d: RootId, page: nat): Found
      requires d in roots
    {
      Walk(nodes, roots[d], page, P_L2_LEVELS)
    }

    ghost predicate Ok()
    {
      && TablesOk(sections, subpages)
      && forall d, page: nat :: d in roots && page < PhysPageMap.Pages() ==>
           PageOk(sections, subpages, d, page, Lookup(d, page))
    }

    /** `a` is an address the table of `d` can name. */
    predicate Named(d: RootId, a: int)
    {
      d in roots && 0 <= a && Page(a) < PhysPageMap.Pages()
    }

    /** What an access to `a` through the table of `d` reaches. */
    ghost function Meaning(d: RootId, a: int): Option<Access>
      requires Ok() && Named(d, a)
    {
      Target(SectionFor(sections, subpages, Lookup(d, Page(a)), a), a)
    }
  }

  /** A lookup ends at the unassigned section or at a guest section. */
  lemma FoundKind(x: Index, d: RootId, a: int)
    requires x.Ok() && x.Named(d, a)
    ensures var s := SectionFor(x.sections, x.subpages, x.Lookup(d, Page(a)), a); s.mr.Unassigned? || s.mr.Guest?
  {
    assert PageOk(x.sections, x.subpages, d, Page(a), x.Lookup(d, Page(a)));
    var s := x.sections[x.Lookup(d, Page(a)).section];
    if s.mr.Subpage? { assert SubOk(x.sections, x.subpages[s.mr.table]); }
  }

  /** Every address reaches what it reached before, but for [lo, hi) of `d`, which reaches `s`. */
  ghost predicate Mapped(x0: Index, x1: Index, d: RootId, s: Section, lo: int, hi: int)
    requires x0.Ok() && x1.Ok()
  {
    && x1.roots.Keys == x0.roots.Keys
    && forall d', a :: x1.Named(d', a) ==>
         x1.Meaning(d', a) == if d' == d && lo <= a < hi then Target(s, a) else x0.Meaning(d', a)
  }

  ghost predicate SameMeaning(x0: Index, x1: Index)
    requires x0.Ok() && x1.Ok()
  {
    && x1.roots.Keys == x0.roots.Keys
    && forall d, a :: x1.Named(d, a) ==> x1.Meaning(d, a) == x0.Meaning(d, a)
  }

  /** The page table changed from `x0` to `x1` by setting pages [page, page + nb) of `d` to section `n`. */
  ghost predicate PagesSet(x0: Index, x1: Index, d: RootId, page: nat, nb: nat, n: nat)
  {
    && x1.roots.Keys == x0.roots.Keys
    && forall d', p: nat :: d' in x1.roots && p < PhysPageMap.Pages() ==>
         PageSet(x0.Lookup(d', p), x1.Lookup(d', p), d' == d && page <= p < page + nb, n, nb < L2_SIZE)
  }

  lemma PageStable(x0: Index, x1: Index, d: RootId, page: nat)
    requires x0.Ok() && d in x0.roots && d in x1.roots && page < PhysPageMap.Pages()
    requires x0.sections <= x1.sections && x0.subpages <= x1.subpages
    requires x1.Lookup(d, page) == x0.Lookup(d, page)
    ensures PageOk(x1.sections, x1.subpages, d, page, x1.Lookup(d, page))
    ensures TablesOk(x1.sections, x1.subpages) ==>
              forall a: nat :: SectionFor(x1.sections, x1.subpages, x1.Lookup(d, page), a)
                            == SectionFor(x0.sections, x0.subpages, x0.Lookup(d, page), a)
  {
    assert PageOk(x0.sections, x0.subpages, d, page, x0.Lookup(d, page));
    var s := x0.sections[x0.Lookup(d, page).section];
    if s.mr.Subpage? {
      assert SubOk(x0.sections, x0.subpages[s.mr.table]);
    }
  }

  /** An unassigned page given a fresh split table still reaches nothing. */
  lemma SubpageCreated(x0: Index, x1: Index, d: RootId, page: nat)
    requires x0.Ok() && d in x0.roots && page < PhysPageMap.Pages()
    requires x0.sections[x0.Lookup(d, page).section].mr.Unassigned?
    requires |x1.sections| == |x0.sections| + 1 && x0.sections <= x1.sections
    requires x1.sections[|x0.sections|].mr == Subpage(|x0.subpages|)
    requires x1.subpages == x0.subpages + [FreshSubpage(d, page)]
    requires PagesSet(x0, x1, d, page, 1, |x0.sections|)
    ensures x1.Ok() && SameMeaning(x0, x1)
    ensures x1.Lookup(d, page).section == |x0.sections|
  {
    assert TablesOk(x1.sections, x1.subpages) by {
      forall id | 0 <= id < |x1.subpages| ensures SubOk(x1.sections, x1.subpages[id]) {
        if id < |x0.subpages| { assert SubOk(x0.sections, x0.subpages[id]); }
      }
    }
    forall d', p: nat | d' in x1.roots && p < PhysPageMap.Pages()
      ensures PageOk(x1.sections, x1.subpages, d', p, x1.Lookup(d', p))
    {
      if d' != d || p != page { PageStable(x0, x1, d', p); }
    }
    forall d', a | x1.Named(d', a) ensures x1.Meaning(d', a) == x0.Meaning(d', a) {
      if d' != d || Page(a) != page {
        PageStable(x0, x1, d', Page(a));
      } else {
        assert SectionFor(x1.sections, x1.subpages, x1.Lookup(d, page), a) == x1.sections[0];
      }
    }
  }

  /** A range inside one page, byte by byte. */
  lemma InPage(address: nat, size: nat, a: nat)
    requires 0 < size && address % TARGET_PAGE_SIZE + size <= TARGET_PAGE_SIZE
    ensures address <= a < address + size <==>
            Page(a) == Page(address)
            && address % TARGET_PAGE_SIZE <= a % TARGET_PAGE_SIZE <= address % TARGET_PAGE_SIZE + size - 1
  {
    if address <= a < address + size {
      Quotient(a, TARGET_PAGE_SIZE, Page(address), address % TARGET_PAGE_SIZE + (a - address));
    }
  }

  /** Sending part of a split page to a new section. */
  lemma SubpageFilled(x0: Index, x1: Index, d: RootId, id: nat, s: Section)
    requires x0.Ok() && x0.Named(d, s.address) && id < |x0.subpages|
    requires x0.sections[x0.Lookup(d, Page(s.address)).section].mr == Subpage(id)
    requires s.mr.Guest? && 0 < s.size && s.address % TARGET_PAGE_SIZE + s.size <= TARGET_PAGE_SIZE
    requires var start := s.address % TARGET_PAGE_SIZE;
             x1 == x0.(sections := x0.sections + [s],
                       subpages :=
                         x0.subpages[id := Overwritten(x0.subpages[id], start, start + s.size - 1, |x0.sections|)])
    ensures x1.Ok() && Mapped(x0, x1, d, s, s.address, s.address + s.size)
  {
    var page, start := Page(s.address), s.address % TARGET_PAGE_SIZE;
    assert PageOk(x0.sections, x0.subpages, d, page, x0.Lookup(d, page));
    assert TablesOk(x1.sections, x1.subpages) by {
      forall i | 0 <= i < |x1.subpages| ensures SubOk(x1.sections, x1.subpages[i]) {
        assert SubOk(x0.sections, x0.subpages[i]);
      }
    }
    forall d', p: nat | d' in x1.roots && p < PhysPageMap.Pages()
      ensures PageOk(x1.sections, x1.subpages, d', p, x1.Lookup(d', p))
    {
      assert PageOk(x0.sections, x0.subpages, d', p, x0.Lookup(d', p));
    }
    forall d', a | x1.Named(d', a)
      ensures x1.Meaning(d', a) ==
              if d' == d && s.address <= a < s.address + s.size then Target(s, a) else x0.Meaning(d', a)
    {
      InPage(s.address, s.size, a);
      SubpageFilledAt(x0, x1, d, id, s, d', a);
    }
  }

  lemma SubpageFilledAt(x0: Index, x1: Index, d: RootId, id: nat, s: Section, d': RootId, a: nat)
    requires x0.Ok() && x0.Named(d, s.address) && id < |x0.subpages| && x1.Ok() && x1.Named(d', a)
    requires x0.sections[x0.Lookup(d, Page(s.address)).section].mr == Subpage(id) && 0 < s.size
    requires var start := s.address % TARGET_PAGE_SIZE;
             x1 == x0.(sections := x0.sections + [s],
                       subpages :=
                         x0.subpages[id := Overwritten(x0.subpages[id], start, start + s.size - 1, |x0.sections|)])
    ensures var start := s.address % TARGET_PAGE_SIZE;
            x1.Meaning(d', a) ==
            if d' == d && Page(a) == Page(s.address) && start <= a % TARGET_PAGE_SIZE <= start + s.size - 1
            then Target(s, a) else x0.Meaning(d', a)
  {
    assert PageOk(x0.sections, x0.subpages, d, Page(s.address), x0.Lookup(d, Page(s.address)));
    assert PageOk(x0.sections, x0.subpages, d', Page(a), x0.Lookup(d', Page(a)));
    var sec := x0.sections[x0.Lookup(d', Page(a)).section];
    if sec.mr == Subpage(id) {
      assert d' == d;
      MulCancel(Page(a), Page(s.address), TARGET_PAGE_SIZE);
      assert SubOk(x0.sections, x0.subpages[id]);
    } else if sec.mr.Subpage? {
      assert SubOk(x0.sections, x0.subpages[sec.mr.table]);
    }
  }

  /** Sending whole pages, none of which is reached yet, to a new section. */
  lemma PagesFilled(x0: Index, x1: Index, d: RootId, s: Section, page: nat, nb: nat)
    requires x0.Ok() && s.mr.Guest? && d in x0.roots && page + nb <= PhysPageMap.Pages()
    requires s.address == page * TARGET_PAGE_SIZE && s.size == nb * TARGET_PAGE_SIZE
    requires x1.sections == x0.sections + [s] && x1.subpages == x0.subpages
    requires PagesSet(x0, x1, d, page, nb, |x0.sections|)
    ensures x1.Ok() && Mapped(x0, x1, d, s, s.address, s.address + s.size)
  {
    assert TablesOk(x1.sections, x1.subpages) by {
      forall id | 0 <= id < |x1.subpages| ensures SubOk(x1.sections, x1.subpages[id]) {
        assert SubOk(x0.sections, x0.subpages[id]);
      }
    }
    forall d', p: nat | d' in x1.roots && p < PhysPageMap.Pages()
      ensures PageOk(x1.sections, x1.subpages, d', p, x1.Lookup(d', p))
    {
      if d' != d || !(page <= p < page + nb) { PageStable(x0, x1, d', p); }
    }
    forall d', a | x1.Named(d', a)
      ensures x1.Meaning(d', a) ==
              if d' == d && s.address <= a < s.address + s.size then Target(s, a) else x0.Meaning(d', a)
    {
      WholePages(page, nb, a);
      if d' != d || !(page <= Page(a) < page + nb) { PageStable(x0, x1, d', Page(a)); }
    }
  }

  lemma WholePages(page: nat, nb: nat, a: nat)
    ensures page <= Page(a) < page + nb <==>
            page * TARGET_PAGE_SIZE <= a < page * TARGET_PAGE_SIZE + nb * TARGET_PAGE_SIZE
  {
    var q, r := Page(a), a % TARGET_PAGE_SIZE;
    assert a == q * TARGET_PAGE_SIZE + r;
    MulDistribute(page, nb, TARGET_PAGE_SIZE);
    if page <= q { MulMonotone(page, q, TARGET_PAGE_SIZE); } else {
      MulMonotone(q + 1, page, TARGET_PAGE_SIZE);
      MulDistribute(q, 1, TARGET_PAGE_SIZE);
    }
    if q < page + nb {
      MulMonotone(q + 1, page + nb, TARGET_PAGE_SIZE);
      MulDistribute(q, 1, TARGET_PAGE_SIZE);
    } else {
      MulMonotone(page + nb, q, TARGET_PAGE_SIZE);
    }
  }

  lemma TableBegun(x0: Index, x1: Index, d: RootId)
    requires x0.Ok() && d !in x0.roots && x1 == x0.(roots := x0.roots[d := NIL_ENTRY])
    ensures x1.Ok()
    ensures forall a :: x1.Named(d, a) ==> x1.Meaning(d, a) == None
    ensures forall d', a :: d' in x0.roots && x1.Named(d', a) ==> x1.Meaning(d', a) == x0.Meaning(d', a)
  {
    forall d', page: nat | d' in x1.roots && page < PhysPageMap.Pages()
      ensures PageOk(x1.sections, x1.subpages, d', page, x1.Lookup(d', page))
    {
      if d' != d { PageStable(x0, x1, d', page); }
    }
    forall d', a | d' in x0.roots && x1.Named(d', a) ensures x1.Meaning(d', a) == x0.Meaning(d', a) {
      PageStable(x0, x1, d', Page(a));
    }
  }

  class Dispatcher {
    const pages: PhysPageMap
    var sections: seq<Section>
    var subpages: seq<SubpageTable>

    ghost function GetIndex(): Index
      reads this, pages
    {
      Index(pages.nodes, pages.roots, sections, subpages)
    }

    ghost predicate Valid()
      reads this, pages
    {
      pages.Valid() && GetIndex().Ok()
    }

    /** The run stopped at one of the capacity assertions of the original. */
    ghost predicate Exhausted()
      reads this, pages
    {
      TARGET_PAGE_SIZE <= |sections| || |pages.nodes| == NODE_NIL
    }

    /** core_begin: an empty node pool and the four fixed sections. */
    constructor ()
      ensures Valid() && fresh(pages) && pages.roots == map[]
    {
      pages := new PhysPageMap();
      sections := [
        Section(Unassigned, 0, 0, TWO_64, false), Section(NotDirty, 0, 0, TWO_64, false),
        Section(Rom, 0, 0, TWO_64, false), Section(Watch, 0, 0, TWO_64, false)];
      subpages := [];
    }

    /** mem_begin: the table of `d` starts out reaching nothing; the others are not affected. */
    method BeginTable(d: RootId)
      requires Valid() && d !in pages.roots
      modifies pages
      ensures Valid() && pages.roots.Keys == old(pages.roots.Keys) + {d}
      ensures forall a :: GetIndex().Named(d, a) ==> GetIndex().Meaning(d, a) == None
      ensures forall d', a :: d' in old(pages.roots) && GetIndex().Named(d', a) ==>
                GetIndex().Meaning(d', a) == old(GetIndex()).Meaning(d', a)
    {
      ghost var x0 := GetIndex();
      pages.AddRoot(d);
      TableBegun(x0, GetIndex(), d);
    }

    /** phys_section_add; false where the original asserts that section numbers stay below the page size. */
    method AddSection(s: Section) returns (n: nat, ok: bool)
      modifies `sections
      ensures ok == (old(|sections|) < TARGET_PAGE_SIZE)
      ensures ok ==> n == old(|sections|) && sections == old(sections) + [s]
      ensures !ok ==> sections == old(sections)
    {
      n, ok := |sections|, |sections| < TARGET_PAGE_SIZE;
      if ok {
        sections := sections + [s];
      }
    }

    /** address_space_lookup_region with resolve_subpage set. */
    method LookupRegion(d: RootId, a: nat) returns (s: Section)
      requires Valid() && GetIndex().Named(d, a)
      ensures s == SectionFor(sections, subpages, GetIndex().Lookup(d, Page(a)), a)
      ensures Target(s, a) == GetIndex().Meaning(d, a)
    {
      var found := pages.Find(d, Page(a));
      assert PageOk(sections, subpages, d, Page(a), GetIndex().Lookup(d, Page(a)));
      s := sections[found];
      if s.mr.Subpage? {
        assert SubOk(sections, subpages[s.mr.table]);
        s := sections[subpages[s.mr.table].sub[a % TARGET_PAGE_SIZE]];
      }
    }

    /** phys_page_set, as a change of the index. */
    method SetPages(d: RootId, page: nat, nb: nat, n: nat) returns (ok: bool)
      requires pages.Valid() && d in pages.roots && 0 < nb && page + nb <= PhysPageMap.Pages()
      requires forall p: nat :: page <= p < page + nb ==> !GetIndex().Lookup(d, p).upper
      modifies pages
      ensures ok || |pages.nodes| == NODE_NIL
      ensures ok ==> pages.Valid() && PagesSet(old(GetIndex()), GetIndex(), d, page, nb, n)
    {
      forall p: nat | page <= p < page + nb ensures !pages.Lookup(d, p).upper {
        assert pages.Lookup(d, p) == GetIndex().Lookup(d, p);
      }
      ok := pages.Set(d, page, nb, n);
      if ok {
        forall d', p: nat | d' in pages.roots && p < PhysPageMap.Pages()
          ensures PageSet(old(GetIndex()).Lookup(d', p), GetIndex().Lookup(d', p),
                          d' == d && page <= p < page + nb, n, nb < L2_SIZE)
        {
          assert pages.Lookup(d', p) == GetIndex().Lookup(d', p);
          assert old(pages.Lookup(d', p)) == old(GetIndex()).Lookup(d', p);
        }
      }
    }

    /** A fresh split table for an unassigned page: subpage_init and the entry pointing to it. */
    method NewSubpage(d: RootId, page: nat) returns (id: nat, ok: bool)
      requires Valid() && d in pages.roots && page < PhysPageMap.Pages()
      requires sections[GetIndex().Lookup(d, page).section].mr.Unassigned?
      modifies this, pages
      ensures ok || Exhausted()
      ensures ok ==> Valid() && id < |subpages| && SameMeaning(old(GetIndex()), GetIndex())
      ensures ok ==> sections[GetIndex().Lookup(d, page).section].mr == Subpage(id)
    {
      ghost var x0 := GetIndex();
      assert PageOk(sections, subpages, d, page, x0.Lookup(d, page));
      id := |subpages|;
      var n;
      n, ok := AddSection(Section(Subpage(id), page * TARGET_PAGE_SIZE, 0, TARGET_PAGE_SIZE, false));
      if !ok { return; }
      subpages := subpages + [FreshSubpage(d, page)];
      ghost var x1 := GetIndex();
      ok := SetPages(d, page, 1, n);
      if !ok { return; }
      assert PagesSet(x0, GetIndex(), d, page, 1, n) by { PagesSetFrom(x0, x1, GetIndex(), d, page, 1, n); }
      SubpageCreated(x0, GetIndex(), d, page);
    }

    /** The first half of register_subpage: the page of `a` gets a split table unless it has one. */
    method OpenSubpage(d: RootId, a: nat) returns (id: nat, ok: bool)
      requires Valid() && GetIndex().Named(d, a) && GetIndex().Meaning(d, a) == None
      modifies this, pages
      ensures ok || Exhausted()
      ensures ok ==> Valid() && id < |subpages| && SameMeaning(old(GetIndex()), GetIndex())
      ensures ok ==> sections[GetIndex().Lookup(d, Page(a)).section].mr == Subpage(id)
    {
      var found := pages.Find(d, Page(a));
      assert PageOk(sections, subpages, d, Page(a), GetIndex().Lookup(d, Page(a)));
      var existing := sections[found];
      assert existing.mr.Subpage? || existing.mr.Unassigned?;  // the assertion of register_subpage
      if existing.mr.Subpage? {
        return existing.mr.table, true;
      }
      id, ok := NewSubpage(d, Page(a));
    }

    /** subpage_register. */
    method SubpageRegister(id: nat, start: nat, end: nat, n: nat) returns (done: bool)
      requires id < |subpages| && |subpages[id].sub| == TARGET_PAGE_SIZE
      modifies `subpages
      ensures done == (start < TARGET_PAGE_SIZE && end < TARGET_PAGE_SIZE)
      ensures subpages ==
              if done then old(subpages)[id := Overwritten(old(subpages[id]), start, end, n)] else old(subpages)
    {
      if start >= TARGET_PAGE_SIZE || end >= TARGET_PAGE_SIZE {
        return false;
      }
      ghost var before := subpages;
      assert subpages[id].sub == Overwritten(before[id], start, start - 1, n).sub;
      var idx := start;
      while idx <= end
        invariant start <= idx && (idx <= end + 1 || idx == start)
        invariant subpages == before[id := Overwritten(before[id], start, idx - 1, n)]
      {
        var t := subpages[id];
        subpages := subpages[id := t.(sub := t.sub[idx := n])];
        idx := idx + 1;
        assert subpages[id].sub == Overwritten(before[id], start, idx - 1, n).sub;
      }
      assert subpages[id].sub == Overwritten(before[id], start, end, n).sub;
      return true;
    }

    /** register_subpage: a section that lies within one page. */
    method RegisterSubpage(d: RootId, s: Section) returns (ok: bool)
      requires Valid() && GetIndex().Named(d, s.address) && GetIndex().Meaning(d, s.address) == None
      requires s.mr.Guest? && 0 < s.size && s.address % TARGET_PAGE_SIZE + s.size <= TARGET_PAGE_SIZE
      modifies this, pages
      ensures ok || Exhausted()
      ensures ok ==> Valid() && Mapped(old(GetIndex()), GetIndex(), d, s, s.address, s.address + s.size)
    {
      ghost var x0 := GetIndex();
      var id;
      id, ok := OpenSubpage(d, s.address);
      if !ok { return; }
      ghost var x1 := GetIndex();
      assert SubOk(sections, subpages[id]);
      var n;
      n, ok := AddSection(s);
      if !ok { return; }
      var start := s.address % TARGET_PAGE_SIZE;
      var done := SubpageRegister(id, start, start + s.size - 1, n);
      SubpageFilled(x1, GetIndex(), d, id, s);
      MappedAfterSame(x0, x1, GetIndex(), d, s, s.address, s.address + s.size);
    }

    /** register_multipage: a page-aligned section of whole pages. */
    method RegisterMultipage(d: RootId, s: Section) returns (ok: bool)
      requires Valid() && d in pages.roots && s.mr.Guest?
      requires s.address % TARGET_PAGE_SIZE == 0 && s.size % TARGET_PAGE_SIZE == 0 && 0 < s.size
      requires Page(s.address) + Page(s.size) <= PhysPageMap.Pages()
      requires forall a :: s.Contains(a) && GetIndex().Named(d, a) ==> GetIndex().Meaning(d, a) == None
      modifies this, pages
      ensures ok || Exhausted()
      ensures ok ==> Valid() && Mapped(old(GetIndex()), GetIndex(), d, s, s.address, s.address + s.size)
    {
      ghost var x0 := GetIndex();
      var page, nb := Page(s.address), Page(s.size);
      UnreachedPages(x0, d, s);
      var n;
      n, ok := AddSection(s);
      if !ok { return; }
      assert nb > 0;  // the assertion of register_multipage
      ghost var x1 := GetIndex();
      forall p: nat | page <= p < page + nb ensures !GetIndex().Lookup(d, p).upper {
        assert x0.Lookup(d, p) == GetIndex().Lookup(d, p);
      }
      ok := SetPages(d, page, nb, n);
      if !ok { return; }
      PagesSetFrom(x0, x1, GetIndex(), d, page, nb, n);
      PagesFilled(x0, GetIndex(), d, s, page, nb);
    }

    /** One turn of the loop of mem_add: the page-aligned rest of a section gives up its next piece. */
    method AddPiece(d: RootId, remain: Section) returns (now: Section, ok: bool)
      requires Valid() && Vacant(GetIndex(), d, remain)
      requires remain.mr.Guest? && 0 < remain.size && remain.address % TARGET_PAGE_SIZE == 0
      modifies this, pages
      ensures ok || Exhausted()
      ensures ok ==> now == remain.(size := now.size) && 0 < now.size <= remain.size
      ensures ok ==> now.size == remain.size || (remain.address + now.size) % TARGET_PAGE_SIZE == 0
      ensures ok ==> Valid() && Mapped(old(GetIndex()), GetIndex(), d, now, now.address, now.address + now.size)
    {
      PieceArithmetic(remain.address, remain.size, PhysPageMap.Pages());
      assert remain.Contains(remain.address);
      now := remain;
      if remain.size < TARGET_PAGE_SIZE {
        ok := RegisterSubpage(d, now);
      } else if remain.offset % TARGET_PAGE_SIZE != 0 {
        now := now.(size := TARGET_PAGE_SIZE);
        ok := RegisterSubpage(d, now);
      } else {
        now := now.(size := RoundDown(now.size));
        ok := RegisterMultipage(d, now);
      }
    }

    /** The part of an unaligned section before its first page boundary; nothing when it is aligned. */
    method AddHead(d: RootId, section: Section) returns (now: Section, ok: bool)
      requires Valid() && Vacant(GetIndex(), d, section) && section.mr.Guest? && 0 < section.size
      modifies this, pages
      ensures ok || Exhausted()
      ensures ok ==> now == section.(size := now.size) && now.size <= section.size
      ensures ok ==> now.size == section.size || (section.address + now.size) % TARGET_PAGE_SIZE == 0
      ensures ok ==>
                Valid() && Mapped(old(GetIndex()), GetIndex(), d, section, section.address, section.address + now.size)
    {
      now, ok := section, true;
      if section.address % TARGET_PAGE_SIZE != 0 {
        var left := TARGET_PAGE_SIZE - section.address % TARGET_PAGE_SIZE;
        Quotient(section.address + left, TARGET_PAGE_SIZE, Page(section.address) + 1, 0);
        now := now.(size := Min(left, now.size));
        assert section.Contains(section.address);
        ok := RegisterSubpage(d, now);
        if ok { MappedSameTarget(old(GetIndex()), GetIndex(), d, now, section, now.address, now.address + now.size); }
      } else {
        now := now.(size := 0);
      }
    }

    /**
      mem_add: the section's bytes, and no others, now reach the section's region at an unchanged distance; the
      pieces registered on the way leave no gap and do not overlap.
     */
    method MemAdd(d: RootId, section: Section) returns (ok: bool)
      requires Valid() && Vacant(GetIndex(), d, section) && section.mr.Guest? && 0 < section.size
      modifies this, pages
      ensures ok || Exhausted()
      ensures ok ==> Valid()
      ensures ok ==> Mapped(old(GetIndex()), GetIndex(), d, section, section.address, section.address + section.size)
    {
      ghost var x0 := GetIndex();
      var now, remain := section, section;
      now, ok := AddHead(d, section);
      if !ok { return; }
      hide Mapped, Vacant;
      while remain.size != now.size
        invariant ok && Valid()
        invariant now == remain.(size := now.size) && now.size <= remain.size
        invariant remain.mr == section.mr && remain.readonly == section.readonly
        invariant section.address <= remain.address && remain.address + remain.size == section.address + section.size
        invariant remain.offset - remain.address == section.offset - section.address
        invariant now.size == remain.size || (remain.address + now.size) % TARGET_PAGE_SIZE == 0
        invariant Mapped(x0, GetIndex(), d, section, section.address, remain.address + now.size)
        decreases remain.size - now.size
      {
        remain := remain.(size := remain.size - now.size, address := remain.address + now.size,
                          offset := remain.offset + now.size);
        ghost var x1 := GetIndex();
        RestVacant(x0, x1, d, section, remain);
        now, ok := AddPiece(d, remain);
        if !ok { return; }
        MappedExtend(x0, x1, GetIndex(), d, section, now, section.address, now.address, now.address + now.size);
      }
    }
  }

  /** The section fits the table of `d`, and none of its bytes is reached yet. */
  ghost predicate Vacant(x: Index, d: RootId, s: Section)
    requires x.Ok()
  {
    && d in x.roots
    && s.address + s.size <= PhysPageMap.Pages() * TARGET_PAGE_SIZE
    && forall a :: s.Contains(a) ==> x.Named(d, a) && x.Meaning(d, a) == None
  }

  /** Numbers needed to cut a page-aligned rest into its next piece. */
  lemma PieceArithmetic(address: nat, size: nat, limit: nat)
    requires address % TARGET_PAGE_SIZE == 0 && address + size <= limit * TARGET_PAGE_SIZE
    ensures (address + TARGET_PAGE_SIZE) % TARGET_PAGE_SIZE == 0
    ensures RoundDown(size) % TARGET_PAGE_SIZE == 0 && (address + RoundDown(size)) % TARGET_PAGE_SIZE == 0
    ensures Page(address) + Page(RoundDown(size)) <= limit
    ensures TARGET_PAGE_SIZE <= size ==> TARGET_PAGE_SIZE <= RoundDown(size)
  {
    RoundDownPages(size);
    RoundDownPages(address);
    hide RoundDown, Page;
    AlignedSum(address, TARGET_PAGE_SIZE, Page(address), 1);
    AlignedSum(address, RoundDown(size), Page(address), Page(size));
    PagesBelow(address + RoundDown(size), Page(address) + Page(size), limit);
  }

  lemma RoundDownPages(n: nat)
    ensures RoundDown(n) == Page(n) * TARGET_PAGE_SIZE && Page(RoundDown(n)) == Page(n)
            && RoundDown(n) % TARGET_PAGE_SIZE == 0
    ensures n % TARGET_PAGE_SIZE == 0 ==> RoundDown(n) == n
    ensures TARGET_PAGE_SIZE <= n ==> TARGET_PAGE_SIZE <= RoundDown(n)
  {
    var q := n / TARGET_PAGE_SIZE;
    Quotient(q * TARGET_PAGE_SIZE, TARGET_PAGE_SIZE, q, 0);
    if TARGET_PAGE_SIZE <= n { AtLeastOnePage(n); }
  }

  lemma AtLeastOnePage(n: nat)
    requires TARGET_PAGE_SIZE <= n
    ensures TARGET_PAGE_SIZE <= n / TARGET_PAGE_SIZE * TARGET_PAGE_SIZE
  {
    var q := n / TARGET_PAGE_SIZE;
    assert n == q * TARGET_PAGE_SIZE + n % TARGET_PAGE_SIZE;
    if 1 <= q { MulMonotone(1, q, TARGET_PAGE_SIZE); } else { MulMonotone(q, 0, TARGET_PAGE_SIZE); }
  }

  lemma AlignedSum(a: nat, b: nat, q: nat, n: nat)
    requires a == q * TARGET_PAGE_SIZE && b == n * TARGET_PAGE_SIZE
    ensures a + b == (q + n) * TARGET_PAGE_SIZE && (a + b) % TARGET_PAGE_SIZE == 0
  {
    MulDistribute(q, n, TARGET_PAGE_SIZE);
    Quotient(a + b, TARGET_PAGE_SIZE, q + n, 0);
  }

  lemma PagesBelow(a: nat, n: nat, limit: nat)
    requires a == n * TARGET_PAGE_SIZE && a <= limit * TARGET_PAGE_SIZE
    ensures n <= limit
  {
    if limit < n {
      MulMonotone(limit + 1, n, TARGET_PAGE_SIZE);
      MulDistribute(limit, 1, TARGET_PAGE_SIZE);
    }
  }

  lemma MappedSameTarget(x0: Index, x1: Index, d: RootId, s: Section, t: Section, lo: int, hi: int)
    requires x0.Ok() && x1.Ok() && Mapped(x0, x1, d, s, lo, hi)
    requires forall a :: Target(s, a) == Target(t, a)
    ensures Mapped(x0, x1, d, t, lo, hi)
  {
  }

  lemma RestVacant(x0: Index, x1: Index, d: RootId, section: Section, remain: Section)
    requires x0.Ok() && x1.Ok() && Vacant(x0, d, section)
    requires section.address <= remain.address && remain.address + remain.size == section.address + section.size
    requires Mapped(x0, x1, d, section, section.address, remain.address)
    ensures Vacant(x1, d, remain)
  {
    forall a | remain.Contains(a) ensures x1.Named(d, a) && x1.Meaning(d, a) == None {
      assert section.Contains(a);
    }
  }

  lemma MappedExtend(x0: Index, x1: Index, x2: Index, d: RootId, s: Section, piece: Section, lo: int, mid: int, hi: int)
    requires x0.Ok() && x1.Ok() && x2.Ok()
    requires Mapped(x0, x1, d, s, lo, mid) && Mapped(x1, x2, d, piece, mid, hi) && lo <= mid <= hi
    requires piece.mr == s.mr && piece.readonly == s.readonly && piece.offset - piece.address == s.offset - s.address
    ensures Mapped(x0, x2, d, s, lo, hi)
  {
    forall d', a | x2.Named(d', a)
      ensures x2.Meaning(d', a) == if d' == d && lo <= a < hi then Target(s, a) else x0.Meaning(d', a)
    {
      assert x1.Named(d', a);
      assert Target(piece, a) == Target(s, a);
    }
  }

  /** Adding sections does not move the page table. */
  lemma PagesSetFrom(x0: Index, x1: Index, x2: Index, d: RootId, page: nat, nb: nat, n: nat)
    requires x1.nodes == x0.nodes && x1.roots == x0.roots
    requires PagesSet(x1, x2, d, page, nb, n)
    ensures PagesSet(x0, x2, d, page, nb, n)
  {
    forall d', p: nat | d' in x2.roots && p < PhysPageMap.Pages()
      ensures PageSet(x0.Lookup(d', p), x2.Lookup(d', p), d' == d && page <= p < page + nb, n, nb < L2_SIZE)
    {
      assert x0.Lookup(d', p) == x1.Lookup(d', p);
    }
  }

  lemma MappedAfterSame(x0: Index, x1: Index, x2: Index, d: RootId, s: Section, lo: int, hi: int)
    requires x0.Ok() && x1.Ok() && x2.Ok() && SameMeaning(x0, x1) && Mapped(x1, x2, d, s, lo, hi)
    ensures Mapped(x0, x2, d, s, lo, hi)
  {
    forall d', a | x2.Named(d', a)
      ensures x2.Meaning(d', a) == if d' == d && lo <= a < hi then Target(s, a) else x0.Meaning(d', a)
    {
      assert x1.Named(d', a);
    }
  }

  /** The first byte of a page inside a page-aligned extent. */
  lemma PageStart(address: nat, size: nat, p: nat) returns (a: nat)
    requires address % TARGET_PAGE_SIZE == 0 && size % TARGET_PAGE_SIZE == 0
    requires Page(address) <= p < Page(address) + Page(size)
    ensures Page(a) == p && address <= a < address + size
  {
    a := p * TARGET_PAGE_SIZE;
    Quotient(a, TARGET_PAGE_SIZE, p, 0);
    WholePages(Page(address), Page(size), a);
    assert Page(address) * TARGET_PAGE_SIZE == address;
    assert Page(size) * TARGET_PAGE_SIZE == size;
  }

  /** Pages none of whose bytes is reached are not covered by an upper leaf. */
  lemma UnreachedPages(x: Index, d: RootId, s: Section)
    requires x.Ok() && d in x.roots
    requires s.address % TARGET_PAGE_SIZE == 0 && s.size % TARGET_PAGE_SIZE == 0
    requires Page(s.address) + Page(s.size) <= PhysPageMap.Pages()
    requires forall a :: s.Contains(a) && x.Named(d, a) ==> x.Meaning(d, a) == None
    ensures forall p: nat :: Page(s.address) <= p < Page(s.address) + Page(s.size) ==> !x.Lookup(d, p).upper
  {
    forall p: nat | Page(s.address) <= p < Page(s.address) + Page(s.size) ensures !x.Lookup(d, p).upper {
      var a := PageStart(s.address, s.size, p);
      assert s.Contains(a) && x.Named(d, a);
      assert x.Meaning(d, a) == None;
      assert PageOk(x.sections, x.subpages, d, p, x.Lookup(d, p));
    }
  }
}
