/**
  One address space from region tree to dispatch table: `generate_memory_topology`,
  the two topology passes, and the dispatch listener, whose region_add and
  region_nop callbacks are both `mem_add`.

  The end-to-end result is `UpdateTopology`: looking an address up in the table
  gives the byte `Resolve` finds in the tree.
 */
module AddressSpace {
  import opened Common
  import opened MemoryRegion
  import opened FlatView
  import opened Topology
  import opened PhysMap
  import Dispatch

  /** The addresses a dispatch table can name. */
  function Limit(): nat { PhysPageMap.Pages() * TARGET_PAGE_SIZE }

  function AccessOf(hit: Option<Hit>): Option<Dispatch.Access>
  {
    if hit.None? then None else Some(Dispatch.Access(hit.value.mr, hit.value.offset, hit.value.readonly))
  }

  /** The tree answers only where the table can name an address, however large its root is. */
  ghost predicate Fits(root: Region)
  {
    forall a :: Limit() <= a ==> ResolveRoot(root, a) == None
  }

  /** The same, as seen on a view. */
  predicate ViewFits(view: seq<FlatRange>)
  {
    view == [] || view[|view| - 1].addr.End() <= Limit()
  }

  predicate InLimits(fr: FlatRange) { 0 <= fr.addr.start && 0 < fr.addr.size && fr.addr.End() <= Limit() }

  function ToDispatch(s: MemorySection): Dispatch.Section
    requires 0 <= s.addr.start && 0 <= s.addr.size
  {
    Dispatch.Section(Dispatch.Guest(s.mr), s.addr.start, s.offset, s.addr.size, s.readonly)
  }

  function SectionList(view: seq<FlatRange>): seq<MemorySection>
  {
    seq(|view|, i requires 0 <= i < |view| => SectionOf(view[i]))
  }

  /** Table `d` reaches exactly what `view` says; the other tables are as in `x0`. */
  ghost predicate Shows(x0: Dispatch.Index, x: Dispatch.Index, d: RootId, view: seq<FlatRange>)
    requires x0.Ok() && x.Ok()
  {
    && x.roots.Keys == x0.roots.Keys && d in x.roots
    && forall d', a :: x.Named(d', a) ==>
         x.Meaning(d', a) == if d' == d then AccessOf(At(view, a)) else x0.Meaning(d', a)
  }

  lemma NamedBelow(x: Dispatch.Index, d: RootId, a: int)
    requires d in x.roots
    ensures x.Named(d, a) <==> 0 <= a < Limit()
  {
    if 0 <= a {
      Dispatch.WholePages(0, PhysPageMap.Pages(), a);
    }
  }

  /** The next range of a well-formed view does not touch what the table reaches so far. */
  lemma NextVacant(x0: Dispatch.Index, x: Dispatch.Index, d: RootId, view: seq<FlatRange>, j: nat)
    requires x0.Ok() && x.Ok() && WellFormed(view) && j < |view| && InLimits(view[j])
    requires Shows(x0, x, d, view[..j])
    ensures Dispatch.Vacant(x, d, ToDispatch(SectionOf(view[j])))
  {
    var s := ToDispatch(SectionOf(view[j]));
    forall a | s.Contains(a) ensures x.Named(d, a) && x.Meaning(d, a) == None {
      NamedBelow(x, d, a);
      AtNone(view[..j], a);
    }
  }

  /** Adding the next range makes the table show one more. */
  lemma ShowNext(x0: Dispatch.Index, x1: Dispatch.Index, x2: Dispatch.Index, d: RootId, view: seq<FlatRange>, j: nat)
    requires x0.Ok() && x1.Ok() && x2.Ok() && WellFormed(view) && j < |view| && InLimits(view[j])
    requires Shows(x0, x1, d, view[..j])
    requires var s := ToDispatch(SectionOf(view[j])); Dispatch.Mapped(x1, x2, d, s, s.address, s.address + s.size)
    ensures Shows(x0, x2, d, view[..j + 1])
  {
    var fr := view[j];
    var s := ToDispatch(SectionOf(fr));
    assert view[..j + 1] == view[..j] + [fr];
    forall d', a | x2.Named(d', a)
      ensures x2.Meaning(d', a) == if d' == d then AccessOf(At(view[..j + 1], a)) else x0.Meaning(d', a)
    {
      assert x1.Named(d', a);
      AtConcat(view[..j], [fr], a);
      AtSingle(fr, a);
      AtNone(view[..j], a);
      assert fr.addr.Contains(a) ==> Dispatch.Target(s, a) == AccessOf(Some(fr.HitAt(a)));
    }
  }

  lemma NextReceived(events: seq<Event>, k: nat, view: seq<FlatRange>, j: nat)
    requires k < |events| && j <= |view| && Received(events[k..]) == SectionList(view[j..])
    ensures if events[k].RegionAdd? || events[k].RegionNop?
            then j < |view| && events[k].section == SectionOf(view[j])
                 && Received(events[k + 1..]) == SectionList(view[j + 1..])
            else Received(events[k + 1..]) == SectionList(view[j..])
  {
    assert events[k..][0] == events[k] && events[k..][1..] == events[k + 1..];
    if events[k].RegionAdd? || events[k].RegionNop? {
      assert Received(events[k..]) == [events[k].section] + Received(events[k + 1..]);
      assert SectionList(view[j..])[0] == SectionOf(view[j]);
      assert SectionList(view[j..])[1..] == SectionList(view[j + 1..]);
      assert ([events[k].section] + Received(events[k + 1..]))[1..] == Received(events[k + 1..]);
    }
  }

  /** The dispatch listener of table `d` handles the events of a topology update. */
  method Feed(disp: Dispatch.Dispatcher, d: RootId, events: seq<Event>, ghost view: seq<FlatRange>) returns (ok: bool)
    requires disp.Valid() && d in disp.pages.roots
    requires WellFormed(view) && (forall j :: 0 <= j < |view| ==> InLimits(view[j]))
    requires Received(events) == SectionList(view)
    requires forall a :: disp.GetIndex().Named(d, a) ==> disp.GetIndex().Meaning(d, a) == None
    modifies disp, disp.pages
    ensures ok || disp.Exhausted()
    ensures ok ==> disp.Valid() && Shows(old(disp.GetIndex()), disp.GetIndex(), d, view)
  {
    ghost var x0 := disp.GetIndex();
    ghost var j := 0;
    var k := 0;
    ok := true;
    assert Shows(x0, x0, d, view[..0]);
    assert view[0..] == view && events[0..] == events;
    while k < |events|
      invariant ok && k <= |events| && j <= |view| && disp.Valid()
      invariant Shows(x0, disp.GetIndex(), d, view[..j])
      invariant Received(events[k..]) == SectionList(view[j..])
    {
      hide Shows, WellFormed, Received, SectionList;
      NextReceived(events, k, view, j);
      if events[k].RegionAdd? || events[k].RegionNop? {
        assert InLimits(view[j]);
        NextVacant(x0, disp.GetIndex(), d, view, j);
        ghost var x1 := disp.GetIndex();
        ok := disp.MemAdd(d, ToDispatch(events[k].section));
        if !ok { return; }
        ShowNext(x0, x1, disp.GetIndex(), d, view, j);
        j := j + 1;
      }
      k := k + 1;
    }
    assert events[k..] == [];
    assert |SectionList(view[j..])| == |view| - j;
    assert view[..j] == view;
  }

  /** A flat view has a range outside the table exactly when the tree answers outside it. */
  lemma TopologyFits(view: seq<FlatRange>, root: Region)
    requires IsTopology(view, root)
    ensures ViewFits(view) <==> Fits(root)
    ensures Fits(root) ==> forall j :: 0 <= j < |view| ==> InLimits(view[j])
  {
    if view != [] {
      var last := view[|view| - 1].addr.End() - 1;
      AtIndex(view, |view| - 1, last);
      assert At(view, last) == ResolveRoot(root, last);
    }
    if ViewFits(view) {
      forall a | Limit() <= a ensures ResolveRoot(root, a) == None {
        assert At(view, a) == ResolveRoot(root, a);
        AtBeyond(view, a);
      }
      forall j | 0 <= j < |view| ensures InLimits(view[j]) {
        var first := view[j].addr.start;
        AtIndex(view, j, first);
        assert At(view, first) == ResolveRoot(root, first);
        assert j < |view| - 1 ==> view[j].addr.End() <= view[|view| - 1].addr.start;
      }
    }
  }

  lemma AtBeyond(view: seq<FlatRange>, a: int)
    requires WellFormed(view) && ViewFits(view) && Limit() <= a
    ensures At(view, a) == None
  {
    AtNone(view, a);
    forall j | 0 <= j < |view| ensures !view[j].addr.Contains(a) {
      assert j < |view| - 1 ==> view[j].addr.End() <= view[|view| - 1].addr.start;
    }
  }

  /** Table `d` of `x` reaches what the tree under `root` means. */
  ghost predicate Implements(x: Dispatch.Index, d: RootId, root: Region)
    requires x.Ok()
  {
    d in x.roots && forall a :: 0 <= a < Limit() ==>
      x.Named(d, a) && x.Meaning(d, a) == AccessOf(ResolveRoot(root, a))
  }

  lemma ShowsImplements(x0: Dispatch.Index, x: Dispatch.Index, d: RootId, view: seq<FlatRange>, root: Region)
    requires x0.Ok() && x.Ok() && Shows(x0, x, d, view) && IsTopology(view, root)
    ensures Implements(x, d, root)
  {
    forall a | 0 <= a < Limit() ensures x.Named(d, a) && x.Meaning(d, a) == AccessOf(ResolveRoot(root, a)) {
      NamedBelow(x, d, a);
      assert At(view, a) == ResolveRoot(root, a);
    }
  }

  /** A table is not affected by the update of another. */
  lemma ShowsOthers(x0: Dispatch.Index, x: Dispatch.Index, d: RootId, view: seq<FlatRange>, e: RootId, root: Region)
    requires x0.Ok() && x.Ok() && Shows(x0, x, d, view) && e != d && Implements(x0, e, root)
    ensures Implements(x, e, root)
  {
    forall a | 0 <= a < Limit() ensures x.Named(e, a) && x.Meaning(e, a) == AccessOf(ResolveRoot(root, a)) {
      NamedBelow(x, e, a);
      assert x0.Named(e, a);
    }
  }

  /** Reaching nothing at all. */
  ghost predicate Blank(x: Dispatch.Index, d: RootId)
    requires x.Ok()
  {
    d in x.roots && forall a :: x.Named(d, a) ==> x.Meaning(d, a) == None
  }

  /** How an update ends: done, or why not. */
  datatype Outcome =
    | Done
    | Undrawable  // the renderer's assertion on 64-bit steps failed
    | Beyond      // the view leaves what the table can name, where the original wraps around
    | OutOfRoom   // a capacity assertion of the dispatch code failed

  /**
    address_space_update_topology for address space `d`, whose table mem_begin has just emptied: the new view is the
    flattened tree, and the table reaches through every address what the tree means there.
   */
  method UpdateTopology(disp: Dispatch.Dispatcher, d: RootId, current: seq<FlatRange>, root: Region)
    returns (view: seq<FlatRange>, end: Outcome)
    requires disp.Valid() && Blank(disp.GetIndex(), d) && WellFormed(current)
    modifies disp, disp.pages
    ensures end == Undrawable <==> !Drawable(root)
    ensures end == Beyond <==> Drawable(root) && !Fits(root)
    ensures end == OutOfRoom ==> disp.Exhausted()
    ensures end != Undrawable ==> IsTopology(view, root)
    ensures end == Done ==> disp.Valid() && Shows(old(disp.GetIndex()), disp.GetIndex(), d, view)
    ensures end == Done ==> Implements(disp.GetIndex(), d, root)
    ensures end == Undrawable || end == Beyond ==> disp.Valid() && disp.GetIndex() == old(disp.GetIndex())
  {
    var v, ok := GenerateTopology(Some(root));
    if !ok {
      return [], Undrawable;
    }
    view := v.ranges;
    TopologyFits(view, root);
    if !ViewFits(view) {
      return view, Beyond;
    }
    var dels := UpdatePass(current, view, false);
    var adds := UpdatePass(current, view, true);
    PassesReceived(current, view);
    ok := Feed(disp, d, dels + adds, view);
    if !ok {
      return view, OutOfRoom;
    }
    ShowsImplements(old(disp.GetIndex()), disp.GetIndex(), d, view, root);
    end := Done;
  }
}
