/**
  Flattening a region tree into a sorted list of disjoint ranges:
  `flatview_insert`, `render_memory_region`, `flatview_simplify` and
  `generate_memory_topology` of memory.c.
 */
module FlatView {
  import opened Common
  import opened MemoryRegion

  /** A signed (Int128) address range. */
  datatype AddrRange = AddrRange(start: int, size: int) {
    function End(): int { start + size }

    predicate Contains(a: int) { start <= a < End() }

    predicate Intersects(other: AddrRange) { Contains(other.start) || other.Contains(start) }

    function Intersection(other: AddrRange): AddrRange
    {
      var lo := Max(start, other.start);
      AddrRange(lo, Min(End(), other.End()) - lo)
    }
  }

  datatype FlatRange = FlatRange(
    mr: RegionId,
    offset: int,
    addr: AddrRange,
    logMask: nat,
    romdMode: bool,
    readonly: bool)
  {
    function HitAt(a: int): Hit { Hit(mr, offset + (a - addr.start), readonly, romdMode, logMask) }
  }

  /** Sorted, pairwise disjoint, no empty range. */
  ghost predicate WellFormed(view: seq<FlatRange>)
  {
    && (forall i :: 0 <= i < |view| ==> 0 < view[i].addr.size)
    && (forall i, j :: 0 <= i < j < |view| ==> view[i].addr.End() <= view[j].addr.start)
  }

  /** All 2^64 addresses. */
  function Everything(): AddrRange { AddrRange(0, TWO_64) }

  predicate InSpan(r: AddrRange) { 0 <= r.start && 0 <= r.size && r.End() <= TWO_64 }

  ghost predicate AllInSpan(view: seq<FlatRange>)
  {
    forall i :: 0 <= i < |view| ==> InSpan(view[i].addr)
  }

  /**
    A view as far as the renderer's 64-bit steps are concerned: empty, one range of all 2^64 bytes, or shorter ranges.
   */
  datatype Extent = Nothing | Whole | Parts

  ghost predicate Spans(view: seq<FlatRange>, e: Extent)
  {
    match e
    case Nothing => view == []
    case Whole => |view| == 1 && view[0].addr == Everything()
    case Parts => view != [] && forall i :: 0 <= i < |view| ==> view[i].addr.size < TWO_64
  }

  /** The extent after a range of `size` bytes has been laid under a view; None where the renderer's assertion fails. */
  function Laid(e: Extent, size: int): Option<Extent>
  {
    match e
    case Nothing => Some(if size == 0 then Nothing else if size == TWO_64 then Whole else Parts)
    case Whole => if size == TWO_64 then None else Some(Whole)
    case Parts => Some(Parts)
  }

  /** What a view says about an address. */
  function At(view: seq<FlatRange>, a: int): Option<Hit>
  {
    if view == [] then None
    else if view[0].addr.Contains(a) then Some(view[0].HitAt(a))
    else At(view[1..], a)
  }

  // ---------------------------------------------------------------- lookups

  lemma {:induction false} AtNone(view: seq<FlatRange>, a: int)
    ensures At(view, a) == None <==> forall i :: 0 <= i < |view| ==> !view[i].addr.Contains(a)
  {
    if view != [] {
      AtNone(view[1..], a);
      if At(view, a) == None {
        forall i | 0 <= i < |view| ensures !view[i].addr.Contains(a) {
          if i > 0 { assert view[i] == view[1..][i - 1]; }
        }
      } else if !view[0].addr.Contains(a) {
        var i :| 0 <= i < |view[1..]| && view[1..][i].addr.Contains(a);
        assert view[i + 1].addr.Contains(a);
      }
    }
  }

  lemma {:induction false} AtIndex(view: seq<FlatRange>, i: nat, a: int)
    requires WellFormed(view) && i < |view| && view[i].addr.Contains(a)
    ensures At(view, a) == Some(view[i].HitAt(a))
  {
    if i > 0 {
      assert view[0].addr.End() <= view[i].addr.start;
      assert WellFormed(view[1..]);
      AtIndex(view[1..], i - 1, a);
    }
  }

  lemma {:induction false} AtConcat(xs: seq<FlatRange>, ys: seq<FlatRange>, a: int)
    ensures At(xs + ys, a) == if At(xs, a).Some? then At(xs, a) else At(ys, a)
  {
    if xs == [] {
      assert xs + ys == ys;
    } else {
      assert (xs + ys)[1..] == xs[1..] + ys;
      AtConcat(xs[1..], ys, a);
    }
  }

  lemma AtSingle(fr: FlatRange, a: int)
    ensures At([fr], a) == if fr.addr.Contains(a) then Some(fr.HitAt(a)) else None
  {
    assert [fr][1..] == [];
  }

  // ---------------------------------------------------------------- insertion

  function Inserted(view: seq<FlatRange>, pos: nat, fr: FlatRange): seq<FlatRange>
    requires pos <= |view|
  {
    view[..pos] + [fr] + view[pos..]
  }

  lemma InsertMeaning(view: seq<FlatRange>, pos: nat, fr: FlatRange, a: int)
    requires pos <= |view|
    requires forall i :: pos <= i < |view| ==> fr.addr.End() <= view[i].addr.start
    requires forall i :: 0 <= i < pos ==> view[i].addr.End() <= fr.addr.start
    ensures At(Inserted(view, pos, fr), a) ==
            if At(view, a).Some? then At(view, a)
            else if fr.addr.Contains(a) then Some(fr.HitAt(a)) else None
  {
    AtConcat(view[..pos] + [fr], view[pos..], a);
    AtConcat(view[..pos], [fr], a);
    AtSingle(fr, a);
    assert view == view[..pos] + view[pos..];
    AtConcat(view[..pos], view[pos..], a);
    if fr.addr.Contains(a) {
      AtNone(view[..pos], a);
      AtNone(view[pos..], a);
    }
  }

  lemma InsertWellFormed(view: seq<FlatRange>, pos: nat, fr: FlatRange)
    requires WellFormed(view) && pos <= |view| && 0 < fr.addr.size
    requires forall i :: pos <= i < |view| ==> fr.addr.End() <= view[i].addr.start
    requires forall i :: 0 <= i < pos ==> view[i].addr.End() <= fr.addr.start
    ensures WellFormed(Inserted(view, pos, fr))
  {
    var v := Inserted(view, pos, fr);
    forall i, j | 0 <= i < j < |v| ensures v[i].addr.End() <= v[j].addr.start {
      var i' := if i < pos then i else i - 1;
      var j' := if j < pos then j else j - 1;
      assert i != pos ==> v[i] == view[i'];
      assert j != pos ==> v[j] == view[j'];
    }
  }

  // ---------------------------------------------------------------- the view

  /** Where `before` had an answer it stays; elsewhere, inside `clip`, the rendered region answers. */
  function Overlay(before: Option<Hit>, clip: AddrRange, below: Option<Hit>, a: int): Option<Hit>
  {
    if before.Some? then before else if clip.Contains(a) then below else None
  }

  /** `view` is `before` with the bytes of [lo, hi) it lacked now answered by `fr`. */
  ghost predicate Filled(before: seq<FlatRange>, fr: FlatRange, lo: int, hi: int, view: seq<FlatRange>)
  {
    forall a :: At(view, a) == Overlay(At(before, a), AddrRange(lo, hi - lo), Some(fr.HitAt(a)), a)
  }

  /** The renderer's progress: everything below `hi` is done, and `view[..i]` lies below `hi` unless all is done. */
  ghost predicate Filling(before: seq<FlatRange>, fr: FlatRange, view: seq<FlatRange>, i: int, hi: int)
  {
    && 0 <= i <= |view|
    && fr.addr.start <= hi <= fr.addr.End()
    && WellFormed(view)
    && AllInSpan(view)
    && Filled(before, fr, fr.addr.start, hi, view)
    && (hi < fr.addr.End() ==> Below(view, i, hi))
  }

  ghost predicate Below(view: seq<FlatRange>, i: nat, hi: int)
    requires i <= |view|
  {
    forall k :: 0 <= k < i ==> view[k].addr.End() <= hi
  }

  /** The part of `fr` at [hi, hi + now). */
  function Piece(fr: FlatRange, hi: int, now: int): FlatRange
  {
    fr.(offset := fr.offset + (hi - fr.addr.start), addr := AddrRange(hi, now))
  }

  lemma FillSkip(before: seq<FlatRange>, fr: FlatRange, view: seq<FlatRange>, i: nat, hi: int)
    requires Filling(before, fr, view, i, hi)
    requires i < |view| && view[i].addr.End() <= hi
    ensures Filling(before, fr, view, i + 1, hi)
  {
  }

  lemma FillStart(view: seq<FlatRange>, fr: FlatRange)
    requires WellFormed(view) && AllInSpan(view) && InSpan(fr.addr)
    ensures Filling(view, fr, view, 0, fr.addr.start)
  {
  }

  /** A gap in front of `view[i]` is filled with the matching piece of `fr`. */
  lemma FillPiece(before: seq<FlatRange>, fr: FlatRange, view: seq<FlatRange>, i: nat, hi: int, now: int)
    requires Filling(before, fr, view, i, hi)
    requires 0 < now <= fr.addr.End() - hi && InSpan(fr.addr)
    requires i < |view| ==> hi + now <= view[i].addr.start
    ensures Filling(before, fr, Inserted(view, i, Piece(fr, hi, now)), i + 1, hi + now)
    ensures i < |view| ==> var next := Inserted(view, i, Piece(fr, hi, now))[i + 1];
                           next == view[i] && hi + now < next.addr.End()
  {
    var piece := Piece(fr, hi, now);
    var view' := Inserted(view, i, piece);
    InsertWellFormed(view, i, piece);
    forall a
      ensures At(view', a) ==
              Overlay(At(before, a), AddrRange(fr.addr.start, hi + now - fr.addr.start), Some(fr.HitAt(a)), a)
    {
      InsertMeaning(view, i, piece, a);
      assert piece.HitAt(a) == fr.HitAt(a);
    }
    forall k | 0 <= k < i + 1 ensures view'[k].addr.End() <= hi + now {
      assert k < i ==> view'[k] == view[k];
    }
  }

  /** Bytes already answered by `view[i]` need no filling. */
  lemma FillCovered(before: seq<FlatRange>, fr: FlatRange, view: seq<FlatRange>, i: nat, hi: int, now: nat)
    requires Filling(before, fr, view, i, hi)
    requires i < |view| && hi + now == Min(fr.addr.End(), view[i].addr.End())
    requires now > 0 ==> view[i].addr.start <= hi
    ensures Filling(before, fr, view, i + 1, hi + now)
  {
    forall a
      ensures At(view, a) ==
              Overlay(At(before, a), AddrRange(fr.addr.start, hi + now - fr.addr.start), Some(fr.HitAt(a)), a)
    {
      if hi <= a < hi + now { AtIndex(view, i, a); }
    }
  }

  /** `view` is `before` with the bytes it lacked inside `clip` now answered by `mr` placed in a container at `base`. */
  ghost predicate Rendered(before: seq<FlatRange>, mr: Region, base: int, clip: AddrRange, readonly: bool,
                           view: seq<FlatRange>)
  {
    forall a :: At(view, a) == Overlay(At(before, a), clip, Resolve(mr, a - (base + mr.addr), readonly), a)
  }

  /** The same for the subregions of a container that itself starts at `base`. */
  ghost predicate RenderedSubs(before: seq<FlatRange>, subs: seq<Region>, base: int, clip: AddrRange, readonly: bool,
                               view: seq<FlatRange>)
  {
    forall a :: At(view, a) == Overlay(At(before, a), clip, ResolveFirst(subs, a - base, readonly), a)
  }

  lemma RenderedNone(view: seq<FlatRange>, subs: seq<Region>, base: int, clip: AddrRange, readonly: bool)
    ensures RenderedSubs(view, subs[..0], base, clip, readonly, view)
  {
  }

  lemma RenderNextSub(before: seq<FlatRange>, subs: seq<Region>, k: nat, base: int, clip: AddrRange, readonly: bool,
                      mid: seq<FlatRange>, view: seq<FlatRange>)
    requires k < |subs|
    requires RenderedSubs(before, subs[..k], base, clip, readonly, mid)
    requires Rendered(mid, subs[k], base, clip, readonly, view)
    ensures RenderedSubs(before, subs[..k + 1], base, clip, readonly, view)
  {
    assert subs[..k + 1] == subs[..k] + [subs[k]];
    forall a
      ensures At(view, a) == Overlay(At(before, a), clip, ResolveFirst(subs[..k + 1], a - base, readonly), a)
    {
      ResolveFirstAppend(subs[..k], subs[k], a - base, readonly);
      assert a - base - subs[k].addr == a - (base + subs[k].addr);
    }
  }

  /** An enabled region renders what it renders inside its own extent. */
  lemma RenderClipped(before: seq<FlatRange>, mr: Region, base: int, clip: AddrRange, readonly: bool,
                      view: seq<FlatRange>)
    requires Rendered(before, mr, base, clip.Intersection(AddrRange(base + mr.addr, mr.size)), readonly, view)
    ensures Rendered(before, mr, base, clip, readonly, view)
  {
    var own := AddrRange(base + mr.addr, mr.size);
    forall a ensures At(view, a) == Overlay(At(before, a), clip, Resolve(mr, a - (base + mr.addr), readonly), a) {
      assert own.Contains(a) <==> 0 <= a - (base + mr.addr) < mr.size;
      assert clip.Intersection(own).Contains(a) <==> clip.Contains(a) && own.Contains(a);
    }
  }

  lemma RenderNothing(view: seq<FlatRange>, mr: Region, base: int, clip: AddrRange, readonly: bool)
    requires !mr.enabled || !AddrRange(base + mr.addr, mr.size).Intersects(clip)
    requires 0 <= clip.size
    ensures Rendered(view, mr, base, clip, readonly, view)
  {
  }

  lemma RenderAlias(before: seq<FlatRange>, mr: Region, base: int, clip: AddrRange, readonly: bool,
                    view: seq<FlatRange>)
    requires mr.enabled && mr.alias.Some?
    requires forall a :: clip.Contains(a) ==> 0 <= a - (base + mr.addr) < mr.size
    requires Rendered(before, mr.alias.value, base + mr.addr - mr.alias.value.addr - mr.aliasOffset, clip,
                      readonly || mr.readonly, view)
    ensures Rendered(before, mr, base, clip, readonly, view)
  {
    var inner := base + mr.addr - mr.alias.value.addr - mr.aliasOffset;
    forall a ensures At(view, a) == Overlay(At(before, a), clip, Resolve(mr, a - (base + mr.addr), readonly), a) {
      assert a - (inner + mr.alias.value.addr) == a - (base + mr.addr) + mr.aliasOffset;
    }
  }

  lemma RenderContainer(before: seq<FlatRange>, mr: Region, base: int, clip: AddrRange, readonly: bool,
                        view: seq<FlatRange>)
    requires mr.enabled && mr.alias.None? && !mr.terminates
    requires forall a :: clip.Contains(a) ==> 0 <= a - (base + mr.addr) < mr.size
    requires RenderedSubs(before, mr.subregions, base + mr.addr, clip, readonly || mr.readonly, view)
    ensures Rendered(before, mr, base, clip, readonly, view)
  {
  }

  /** The range a terminating region contributes to `clip`. */
  function OwnRange(mr: Region, base: int, clip: AddrRange, readonly: bool): FlatRange
  {
    FlatRange(mr.id, clip.start - (base + mr.addr), clip, mr.logMask, mr.romdMode, readonly || mr.readonly)
  }

  lemma RenderTerminal(before: seq<FlatRange>, mr: Region, base: int, clip: AddrRange, readonly: bool,
                       mid: seq<FlatRange>, view: seq<FlatRange>)
    requires mr.enabled && mr.alias.None? && mr.terminates
    requires forall a :: clip.Contains(a) ==> 0 <= a - (base + mr.addr) < mr.size
    requires RenderedSubs(before, mr.subregions, base + mr.addr, clip, readonly || mr.readonly, mid)
    requires Filled(mid, OwnRange(mr, base, clip, readonly), clip.start, clip.End(), view)
    ensures Rendered(before, mr, base, clip, readonly, view)
  {
    var own := OwnRange(mr, base, clip, readonly);
    forall a ensures At(view, a) == Overlay(At(before, a), clip, Resolve(mr, a - (base + mr.addr), readonly), a) {
      assert AddrRange(clip.start, clip.End() - clip.start).Contains(a) <==> clip.Contains(a);
      assert own.HitAt(a).offset == a - (base + mr.addr);
    }
  }

  // ---------------------------------------------------------------- when rendering succeeds

  /** Rendering seen only by how much of the address space is taken; None where the assertion on 64-bit steps fails. */
  function Drawn(mr: Region, base: int, clip: AddrRange, e: Extent): Option<Extent>
    decreases mr, 1
  {
    var own := AddrRange(base + mr.addr, mr.size);
    if !mr.enabled || !own.Intersects(clip) then Some(e) else DrawnOwn(mr, base, clip.Intersection(own), e)
  }

  function DrawnOwn(mr: Region, base: int, clip: AddrRange, e: Extent): Option<Extent>
    decreases mr, 0
  {
    if mr.alias.Some? then Drawn(mr.alias.value, base + mr.addr - mr.alias.value.addr - mr.aliasOffset, clip, e)
    else
      var under := DrawnSubs(mr.subregions, 0, base + mr.addr, clip, e);
      if under.None? || !mr.terminates then under else Laid(under.value, clip.size)
  }

  /** The subregions from the `k`th on. */
  function DrawnSubs(subs: seq<Region>, k: nat, base: int, clip: AddrRange, e: Extent): Option<Extent>
    requires k <= |subs|
    decreases subs, |subs| - k
  {
    if k == |subs| then Some(e)
    else
      var next := Drawn(subs[k], base, clip, e);
      if next.None? then None else DrawnSubs(subs, k + 1, base, clip, next.value)
  }

  /** The tree can be flattened: nowhere does a terminating region of all 2^64 bytes lie under another such. */
  predicate Drawable(root: Region)
  {
    Drawn(root, 0, Everything(), Nothing).Some?
  }

  /** Without terminating regions of 2^64 bytes there is no such place. */
  lemma {:induction false} BoundedDrawn(mr: Region, base: int, clip: AddrRange, e: Extent)
    requires Bounded(mr) && e != Whole
    ensures Drawn(mr, base, clip, e).Some? && Drawn(mr, base, clip, e).value != Whole
    decreases mr, 1
  {
    var own := AddrRange(base + mr.addr, mr.size);
    if mr.enabled && own.Intersects(clip) {
      var inner := clip.Intersection(own);
      if mr.alias.Some? {
        BoundedDrawn(mr.alias.value, base + mr.addr - mr.alias.value.addr - mr.aliasOffset, inner, e);
      } else {
        BoundedSubs(mr.subregions, 0, base + mr.addr, inner, e);
      }
    }
  }

  lemma {:induction false} BoundedSubs(subs: seq<Region>, k: nat, base: int, clip: AddrRange, e: Extent)
    requires k <= |subs| && e != Whole && forall i :: 0 <= i < |subs| ==> Bounded(subs[i])
    ensures DrawnSubs(subs, k, base, clip, e).Some? && DrawnSubs(subs, k, base, clip, e).value != Whole
    decreases subs, |subs| - k
  {
    if k < |subs| {
      BoundedDrawn(subs[k], base, clip, e);
      BoundedSubs(subs, k + 1, base, clip, Drawn(subs[k], base, clip, e).value);
    }
  }

  /** An enabled region as large as what it is drawn into. */
  lemma DrawnFilling(mr: Region, base: int, clip: AddrRange, e: Extent)
    requires mr.enabled && 0 < clip.size && AddrRange(base + mr.addr, mr.size) == clip
    ensures Drawn(mr, base, clip, e) == DrawnOwn(mr, base, clip, e)
  {
    assert clip.Intersection(clip) == clip;
    hide DrawnOwn;
  }

  /** A terminating region without subregions. */
  predicate IsLeaf(mr: Region) { mr.enabled && mr.terminates && mr.alias.None? && mr.subregions == [] }

  lemma LeafDrawn(mr: Region, base: int, clip: AddrRange, e: Extent)
    requires IsLeaf(mr) && 0 < clip.size && AddrRange(base + mr.addr, mr.size) == clip
    ensures Drawn(mr, base, clip, e) == Laid(e, clip.size)
  {
    DrawnFilling(mr, base, clip, e);
    assert DrawnSubs(mr.subregions, 0, base + mr.addr, clip, e) == Some(e);
  }

  /** Two of them of 2^64 bytes side by side: the renderer's assertion fails. */
  lemma TwoWholes(root: Region, base: int, clip: AddrRange)
    requires base == 0 && clip == Everything()
    requires root.enabled && root.alias.None? && AddrRange(root.addr, root.size) == clip && |root.subregions| == 2
    requires forall k :: 0 <= k < 2 ==>
               IsLeaf(root.subregions[k])
               && AddrRange(root.addr + root.subregions[k].addr, root.subregions[k].size) == clip
    ensures !Drawable(root)
  {
    var subs := root.subregions;
    DrawnFilling(root, base, clip, Nothing);
    LeafDrawn(subs[0], base + root.addr, clip, Nothing);
    LeafDrawn(subs[1], base + root.addr, clip, Whole);
    hide Drawn;
    assert DrawnSubs(subs, 1, base + root.addr, clip, Whole) == None;
    assert DrawnSubs(subs, 0, base + root.addr, clip, Nothing) == None;
  }

  /** A shorter range goes in between shorter ranges. */
  lemma PartsInsert(view: seq<FlatRange>, pos: nat, fr: FlatRange, e: Extent)
    requires Spans(view, e) && e != Nothing && pos < |view| && AllInSpan(view) && 0 <= fr.addr.start
    requires fr.addr.End() <= view[pos].addr.start
    requires WellFormed(view) && 0 < fr.addr.size
    ensures Spans(Inserted(view, pos, fr), e)
  {
  }

  /** The range behind the last range of a view. */
  lemma TailExtent(before: seq<FlatRange>, fr: FlatRange, view: seq<FlatRange>, i: nat, base: int, e: Extent)
    requires Filling(before, fr, view, i, base) && Spans(view, e) && InSpan(fr.addr) && i == |view|
             && base < fr.addr.End()
    requires i == 0 ==> base == fr.addr.start
    ensures Laid(e, fr.addr.size).Some?
    ensures Spans(Inserted(view, i, Piece(fr, base, fr.addr.End() - base)), Laid(e, fr.addr.size).value)
  {
    hide Filled;
    assert view != [] ==> view[0].addr.End() <= base && 0 < view[0].addr.size && InSpan(view[0].addr);
    var piece := Piece(fr, base, fr.addr.End() - base);
    assert Inserted(view, i, piece) == view + [piece];
  }

  lemma NoTailExtent(before: seq<FlatRange>, fr: FlatRange, view: seq<FlatRange>, i: nat, e: Extent)
    requires Filling(before, fr, view, i, fr.addr.End()) && Spans(view, e) && InSpan(fr.addr)
    requires if i == 0 then fr.addr.size == 0 else Laid(e, fr.addr.size).Some?
    ensures Laid(e, fr.addr.size) == Some(e)
  {
  }

  // ---------------------------------------------------------------- merging

  /** `r2` continues `r1` in the address space and in the region, with the same attributes. */
  predicate CanMerge(r1: FlatRange, r2: FlatRange)
  {
    && r1.addr.End() == r2.addr.start
    && r1.mr == r2.mr
    && r1.offset + r1.addr.size == r2.offset
    && r1.logMask == r2.logMask
    && r1.romdMode == r2.romdMode
    && r1.readonly == r2.readonly
  }

  ghost predicate SameMeaning(v: seq<FlatRange>, w: seq<FlatRange>)
  {
    forall a :: At(v, a) == At(w, a)
  }

  /** No two neighbours of `view[..n]` and the range after it can be merged. */
  ghost predicate MergedUpTo(view: seq<FlatRange>, n: nat)
  {
    forall k :: 0 <= k < n && k + 1 < |view| ==> !CanMerge(view[k], view[k + 1])
  }

  ghost predicate Canonical(view: seq<FlatRange>)
  {
    WellFormed(view) && MergedUpTo(view, |view|)
  }

  /** A maximal run of mergeable neighbours, `view[i..j]`. */
  ghost predicate IsRun(view: seq<FlatRange>, i: nat, j: nat)
  {
    && i < j <= |view|
    && forall k :: i <= k && k + 1 < j ==> CanMerge(view[k], view[k + 1])
  }

  /** `r` extended to end at `end`. */
  function Grown(r: FlatRange, end: int): FlatRange
  {
    r.(addr := AddrRange(r.addr.start, end - r.addr.start))
  }

  lemma {:induction false} RunContinues(view: seq<FlatRange>, i: nat, j: nat)
    requires IsRun(view, i, j)
    ensures var g := Grown(view[i], view[j - 1].addr.End());
            && g.offset + g.addr.size == view[j - 1].offset + view[j - 1].addr.size
            && g.mr == view[j - 1].mr && g.logMask == view[j - 1].logMask
            && g.romdMode == view[j - 1].romdMode && g.readonly == view[j - 1].readonly
    decreases j
  {
    if j - 1 > i {
      RunContinues(view, i, j - 1);
      assert CanMerge(view[j - 2], view[j - 2 + 1]);
    }
  }

  lemma {:induction false} RunMeaning(view: seq<FlatRange>, i: nat, j: nat, a: int)
    requires WellFormed(view) && IsRun(view, i, j)
    ensures At(view[i..j], a) == At([Grown(view[i], view[j - 1].addr.End())], a)
    decreases j
  {
    AtSingle(Grown(view[i], view[j - 1].addr.End()), a);
    if j - 1 == i {
      assert view[i..j] == [view[i]];
      AtSingle(view[i], a);
    } else {
      RunMeaning(view, i, j - 1, a);
      RunContinues(view, i, j - 1);
      assert CanMerge(view[j - 2], view[j - 2 + 1]);
      assert view[i..j] == view[i..j - 1] + [view[j - 1]];
      AtConcat(view[i..j - 1], [view[j - 1]], a);
      AtSingle(view[j - 1], a);
      AtSingle(Grown(view[i], view[j - 2].addr.End()), a);
      assert view[j - 2].addr.End() <= view[j - 1].addr.start;
    }
  }

  /** The view with the run `view[i..j]` replaced by one range. */
  function Squeezed(view: seq<FlatRange>, i: nat, j: nat): seq<FlatRange>
    requires i < j <= |view|
  {
    view[..i] + [Grown(view[i], view[j - 1].addr.End())] + view[j..]
  }

  lemma SqueezeMeaning(view: seq<FlatRange>, i: nat, j: nat)
    requires WellFormed(view) && IsRun(view, i, j)
    ensures SameMeaning(view, Squeezed(view, i, j))
  {
    var g := Grown(view[i], view[j - 1].addr.End());
    forall a ensures At(view, a) == At(Squeezed(view, i, j), a) {
      assert view == view[..i] + view[i..j] + view[j..];
      AtConcat(view[..i] + view[i..j], view[j..], a);
      AtConcat(view[..i], view[i..j], a);
      RunMeaning(view, i, j, a);
      AtConcat(view[..i] + [g], view[j..], a);
      AtConcat(view[..i], [g], a);
    }
  }

  lemma SqueezeWellFormed(view: seq<FlatRange>, i: nat, j: nat)
    requires WellFormed(view) && IsRun(view, i, j)
    ensures WellFormed(Squeezed(view, i, j))
  {
    var w := Squeezed(view, i, j);
    forall k, l | 0 <= k < l < |w| ensures w[k].addr.End() <= w[l].addr.start {
      var l' := if l <= i then l else l + (j - i - 1);
      assert w[l].addr.start == view[l'].addr.start;
      var k' := if k < i then k else k + (j - i - 1);
      assert w[k].addr.End() == view[k'].addr.End();
    }
    assert view[i].addr.End() <= view[j - 1].addr.End();
  }

  lemma SqueezeMerged(view: seq<FlatRange>, i: nat, j: nat)
    requires WellFormed(view) && IsRun(view, i, j) && MergedUpTo(view, i)
    requires j < |view| ==> !CanMerge(view[j - 1], view[j])
    ensures MergedUpTo(Squeezed(view, i, j), i + 1)
  {
    var w := Squeezed(view, i, j);
    RunContinues(view, i, j);
    forall k | 0 <= k < i + 1 && k + 1 < |w| ensures !CanMerge(w[k], w[k + 1]) {
      if k < i {
        assert w[k] == view[k] && !CanMerge(view[k], view[k + 1]);
      } else {
        assert w[k + 1] == view[j];
      }
    }
  }

  lemma SqueezeStep(before: seq<FlatRange>, view: seq<FlatRange>, i: nat, j: nat)
    requires WellFormed(view) && IsRun(view, i, j) && MergedUpTo(view, i) && SameMeaning(before, view)
    requires j < |view| ==> !CanMerge(view[j - 1], view[j])
    ensures WellFormed(Squeezed(view, i, j))
    ensures MergedUpTo(Squeezed(view, i, j), i + 1)
    ensures SameMeaning(before, Squeezed(view, i, j))
  {
    SqueezeMeaning(view, i, j);
    SqueezeWellFormed(view, i, j);
    SqueezeMerged(view, i, j);
    forall a ensures At(before, a) == At(Squeezed(view, i, j), a) {
      assert At(view, a) == At(Squeezed(view, i, j), a);
    }
  }

  class View {
    var ranges: seq<FlatRange>

    constructor ()
      ensures ranges == []
    {
      ranges := [];
    }

    method Insert(pos: nat, fr: FlatRange)
      requires pos <= |ranges|
      modifies this
      ensures ranges == Inserted(old(ranges), pos, fr)
    {
      ranges := ranges[..pos] + [fr] + ranges[pos..];
    }

    /**
      One turn of the gap-filling loop of render_memory_region, at range `i` and address `base`; false where the step
      over `ranges[i]` does not fit 64 bits.
     */
    method FillStep(fr: FlatRange, i: nat, base: int, ghost before: seq<FlatRange>, ghost e: Extent)
      returns (i': nat, base': int, ok: bool)
      requires Filling(before, fr, ranges, i, base) && Spans(ranges, e) && e != Nothing
      requires i < |ranges| && base < fr.addr.End() && InSpan(fr.addr) && (i == 0 ==> base == fr.addr.start)
      modifies this
      ensures ok <==> Laid(e, fr.addr.size).Some?
      ensures !ok ==> ranges == old(ranges)
      ensures ok ==> Filling(before, fr, ranges, i', base') && Spans(ranges, e)
      ensures ok ==> |ranges| - i' == old(|ranges|) - i - 1 && i < i'
    {
      hide Filled, WellFormed, Below;
      i', base', ok := i, base, true;
      if base' >= ranges[i'].addr.End() {
        FillSkip(before, fr, ranges, i', base');
        i' := i' + 1;
        return;
      }
      var offset, remain := fr.offset + (base' - fr.addr.start), fr.addr.End() - base';
      if base' < ranges[i'].addr.start {
        var now := Min(remain, ranges[i'].addr.start - base');
        FillPiece(before, fr, ranges, i', base', now);
        PartsInsert(ranges, i', fr.(offset := offset, addr := AddrRange(base', now)), e);
        Insert(i', fr.(offset := offset, addr := AddrRange(base', now)));
        i' := i' + 1;
        base', remain := base' + now, remain - now;
      }
      var now := Min(base' + remain, ranges[i'].addr.End()) - base';
      ok := now < TWO_64;  // the assertion of int128_get64
      if ok {
        FillCovered(before, fr, ranges, i', base', now);
        base' := base' + now;
        i' := i' + 1;
      }
    }

    /**
      The tail of render_memory_region: the region itself goes into the gaps the view leaves in `fr.addr`. The assertion
      on 64-bit steps fails exactly when a range of all 2^64 bytes is laid under another.
     */
    method FillGaps(fr: FlatRange, ghost e: Extent) returns (ok: bool)
      requires WellFormed(ranges) && AllInSpan(ranges) && Spans(ranges, e) && InSpan(fr.addr)
      modifies this
      ensures ok <==> Laid(e, fr.addr.size).Some?
      ensures ok ==> WellFormed(ranges) && AllInSpan(ranges) && Spans(ranges, Laid(e, fr.addr.size).value)
      ensures ok ==> Filled(old(ranges), fr, fr.addr.start, fr.addr.End(), ranges)
    {
      hide Filled, WellFormed, Below;
      FillStart(ranges, fr);
      ghost var before := ranges;
      var i, base := 0, fr.addr.start;
      ok := true;
      while i < |ranges| && base != fr.addr.End()
        invariant ok && Filling(before, fr, ranges, i, base) && Spans(ranges, e)
        invariant if i == 0 then base == fr.addr.start else Laid(e, fr.addr.size).Some?
        decreases |ranges| - i
      {
        i, base, ok := FillStep(fr, i, base, before, e);
        if !ok {
          return;
        }
      }
      if base != fr.addr.End() {
        TailExtent(before, fr, ranges, i, base, e);
        FillPiece(before, fr, ranges, i, base, fr.addr.End() - base);
        Insert(i, Piece(fr, base, fr.addr.End() - base));
      } else {
        NoTailExtent(before, fr, ranges, i, e);
      }
    }

    /** render_memory_region: what `ranges` already answers obscures `mr`. */
    method Render(mr: Region, base: int, clip: AddrRange, readonly: bool, ghost e: Extent) returns (ok: bool)
      requires WellFormed(ranges) && AllInSpan(ranges) && Spans(ranges, e) && InSpan(clip)
      modifies this
      ensures ok <==> Drawn(mr, base, clip, e).Some?
      ensures ok ==> WellFormed(ranges) && AllInSpan(ranges) && Spans(ranges, Drawn(mr, base, clip, e).value)
      ensures ok ==> Rendered(old(ranges), mr, base, clip, readonly, ranges)
      decreases mr, 1
    {
      var own := AddrRange(base + mr.addr, mr.size);
      if !mr.enabled || !own.Intersects(clip) {
        RenderNothing(ranges, mr, base, clip, readonly);
        return true;
      }
      ok := RenderOwn(mr, base, clip.Intersection(own), readonly, e);
      if ok { RenderClipped(old(ranges), mr, base, clip, readonly, ranges); }
    }

    /** render_memory_region once `clip` lies inside the region. */
    method RenderOwn(mr: Region, base: int, clip: AddrRange, readonly: bool, ghost e: Extent) returns (ok: bool)
      requires WellFormed(ranges) && AllInSpan(ranges) && Spans(ranges, e) && InSpan(clip)
      requires mr.enabled && base + mr.addr <= clip.start && clip.End() <= base + mr.addr + mr.size
      modifies this
      ensures ok <==> DrawnOwn(mr, base, clip, e).Some?
      ensures ok ==> WellFormed(ranges) && AllInSpan(ranges) && Spans(ranges, DrawnOwn(mr, base, clip, e).value)
      ensures ok ==> Rendered(old(ranges), mr, base, clip, readonly, ranges)
      decreases mr, 0
    {
      hide WellFormed, AllInSpan, Spans, Rendered, RenderedSubs;
      if mr.alias.Some? {
        ok := Render(mr.alias.value, base + mr.addr - mr.alias.value.addr - mr.aliasOffset, clip,
                     readonly || mr.readonly, e);
        if ok { RenderAlias(old(ranges), mr, base, clip, readonly, ranges); }
        return;
      }
      RenderedNone(ranges, mr.subregions, base + mr.addr, clip, readonly || mr.readonly);
      var k := 0;
      ghost var now := e;
      while k < |mr.subregions|
        invariant 0 <= k <= |mr.subregions| && WellFormed(ranges) && AllInSpan(ranges) && Spans(ranges, now)
        invariant DrawnSubs(mr.subregions, 0, base + mr.addr, clip, e)
               == DrawnSubs(mr.subregions, k, base + mr.addr, clip, now)
        invariant RenderedSubs(old(ranges), mr.subregions[..k], base + mr.addr, clip, readonly || mr.readonly, ranges)
      {
        ghost var mid := ranges;
        ok := Render(mr.subregions[k], base + mr.addr, clip, readonly || mr.readonly, now);
        if !ok {
          return;
        }
        now := Drawn(mr.subregions[k], base + mr.addr, clip, now).value;
        RenderNextSub(old(ranges), mr.subregions, k, base + mr.addr, clip, readonly || mr.readonly, mid, ranges);
        k := k + 1;
      }
      assert mr.subregions[..k] == mr.subregions;
      if !mr.terminates {
        RenderContainer(old(ranges), mr, base, clip, readonly, ranges);
        return true;
      }
      ghost var mid := ranges;
      ok := FillGaps(OwnRange(mr, base, clip, readonly), now);
      if ok { RenderTerminal(old(ranges), mr, base, clip, readonly, mid, ranges); }
    }

    /** The inner loop of flatview_simplify: `ranges[i]` swallows the mergeable ranges after it, which stay in place. */
    method MergeRun(i: nat) returns (j: nat)
      requires WellFormed(ranges) && i < |ranges|
      modifies this
      ensures IsRun(old(ranges), i, j)
      ensures ranges == old(ranges)[i := Grown(old(ranges)[i], old(ranges)[j - 1].addr.End())]
      ensures j < |ranges| ==> !CanMerge(old(ranges)[j - 1], old(ranges)[j])
    {
      ghost var before := ranges;
      j := i + 1;
      while j < |ranges| && CanMerge(ranges[j - 1], ranges[j])
        invariant IsRun(before, i, j)
        invariant ranges == before[i := Grown(before[i], before[j - 1].addr.End())]
        decreases |ranges| - j
      {
        assert CanMerge(before[j - 1], before[j]);
        var r := ranges[i];
        ranges := ranges[i := r.(addr := AddrRange(r.addr.start, r.addr.size + ranges[j].addr.size))];
        j := j + 1;
      }
    }

    /** One turn of the outer loop of flatview_simplify: the run at `i` is merged and the rest moved down. */
    method SimplifyStep(i: nat, ghost before: seq<FlatRange>)
      requires WellFormed(ranges) && MergedUpTo(ranges, i) && SameMeaning(before, ranges) && i < |ranges|
      modifies this
      ensures WellFormed(ranges) && MergedUpTo(ranges, i + 1) && SameMeaning(before, ranges)
      ensures i < |ranges| <= old(|ranges|)
    {
      hide WellFormed, SameMeaning, MergedUpTo;
      ghost var view := ranges;
      var j := MergeRun(i);
      SqueezeStep(before, view, i, j);
      ranges := ranges[..i + 1] + ranges[j..];
      assert ranges == Squeezed(view, i, j);
    }

    /** flatview_simplify. */
    method Simplify()
      requires WellFormed(ranges)
      modifies this
      ensures Canonical(ranges)
      ensures SameMeaning(old(ranges), ranges)
    {
      var i := 0;
      while i < |ranges|
        invariant 0 <= i <= |ranges| && WellFormed(ranges)
        invariant MergedUpTo(ranges, i)
        invariant SameMeaning(old(ranges), ranges)
        decreases |ranges| - i
      {
        SimplifyStep(i, old(ranges));
        i := i + 1;
      }
    }
  }

  // ---------------------------------------------------------------- the flattened topology

  /** `view` is the flattened form of the tree under `root`. */
  ghost predicate IsTopology(view: seq<FlatRange>, root: Region)
  {
    Canonical(view) && forall a :: At(view, a) == ResolveRoot(root, a)
  }

  /** The first ranges of two canonical views with the same meaning agree. */
  lemma CanonicalHeads(v: seq<FlatRange>, w: seq<FlatRange>)
    requires Canonical(v) && Canonical(w) && SameMeaning(v, w) && v != []
    ensures w != [] && v[0].addr.start == w[0].addr.start && w[0].addr.End() <= v[0].addr.End()
  {
    var a := v[0].addr.start;
    AtIndex(v, 0, a);
    AtNone(w, a);
    assert At(v, a) == At(w, a);
    var b := w[0].addr.start;
    AtIndex(w, 0, b);
    AtNone(v, b);
    assert At(v, b) == At(w, b);
    if v[0].addr.End() < w[0].addr.End() {
      HeadsMerge(v, w);
      HeadUnmerged(v);
    }
  }

  lemma HeadUnmerged(v: seq<FlatRange>)
    requires Canonical(v) && |v| > 1
    ensures !CanMerge(v[0], v[1])
  {
    assert !CanMerge(v[0], v[0 + 1]);
  }

  /**
    Where one view's first range ends inside the other's, it continues in a second range that it could be merged with.
   */
  lemma HeadsMerge(v: seq<FlatRange>, w: seq<FlatRange>)
    requires WellFormed(v) && WellFormed(w) && SameMeaning(v, w) && v != [] && w != []
    requires v[0].addr.start == w[0].addr.start && v[0].addr.End() < w[0].addr.End()
    ensures |v| > 1 && CanMerge(v[0], v[1])
  {
    var e := v[0].addr.End();
    AtIndex(w, 0, e);
    AtIndex(w, 0, e - 1);
    AtIndex(v, 0, e - 1);
    assert At(v, e) == At(w, e) && At(v, e - 1) == At(w, e - 1);
    AtNone(v, e);
    forall k | 1 < k < |v| ensures !v[k].addr.Contains(e) {
      assert v[1].addr.End() <= v[k].addr.start;
    }
    AtIndex(v, 1, e);
  }

  lemma TailMeaning(v: seq<FlatRange>, a: int)
    requires WellFormed(v) && v != []
    ensures At(v[1..], a) == if v[0].addr.Contains(a) then None else At(v, a)
  {
    AtNone(v[1..], a);
  }

  lemma CanonicalTail(v: seq<FlatRange>)
    requires Canonical(v) && v != []
    ensures Canonical(v[1..])
  {
    forall k | 0 <= k && k + 1 < |v[1..]| ensures !CanMerge(v[1..][k], v[1..][k + 1]) {
      assert !CanMerge(v[k + 1], v[k + 1 + 1]);
    }
  }

  /** A canonical view is determined by its meaning: rendering order and fragmentation leave no trace. */
  lemma {:induction false} CanonicalUnique(v: seq<FlatRange>, w: seq<FlatRange>)
    requires Canonical(v) && Canonical(w) && SameMeaning(v, w)
    ensures v == w
    decreases |v|
  {
    if v == [] {
      if w != [] {
        AtIndex(w, 0, w[0].addr.start);
      }
    } else {
      CanonicalHeads(v, w);
      CanonicalHeads(w, v);
      var a := v[0].addr.start;
      AtIndex(v, 0, a);
      AtIndex(w, 0, a);
      assert At(v, a) == At(w, a);
      assert v[0] == w[0];
      forall b ensures At(v[1..], b) == At(w[1..], b) {
        TailMeaning(v, b);
        TailMeaning(w, b);
        assert At(v, b) == At(w, b);
      }
      CanonicalTail(v);
      CanonicalTail(w);
      CanonicalUnique(v[1..], w[1..]);
      assert v == [v[0]] + v[1..] && w == [w[0]] + w[1..];
    }
  }

  /** Flattening is a function of what the tree means. */
  lemma TopologyUnique(v: seq<FlatRange>, w: seq<FlatRange>, r1: Region, r2: Region)
    requires IsTopology(v, r1) && IsTopology(w, r2)
    ensures v == w <==> forall a :: ResolveRoot(r1, a) == ResolveRoot(r2, a)
  {
    if v == w {
      forall a ensures ResolveRoot(r1, a) == ResolveRoot(r2, a) {
        assert At(v, a) == ResolveRoot(r1, a) && At(w, a) == ResolveRoot(r2, a);
      }
    } else if forall a :: ResolveRoot(r1, a) == ResolveRoot(r2, a) {
      forall a ensures At(v, a) == At(w, a) {
        assert At(v, a) == ResolveRoot(r1, a) && At(w, a) == ResolveRoot(r2, a);
      }
      CanonicalUnique(v, w);
    }
  }

  /** generate_memory_topology; false exactly where the renderer's assertion on 64-bit steps fails. */
  method GenerateTopology(root: Option<Region>) returns (view: View, ok: bool)
    ensures fresh(view)
    ensures ok <==> root.None? || Drawable(root.value)
    ensures root.None? ==> view.ranges == []
    ensures root.Some? && ok ==> IsTopology(view.ranges, root.value)
  {
    view := new View();
    ok := true;
    if root.Some? {
      ok := view.Render(root.value, 0, Everything(), false, Nothing);
      if !ok {
        return;
      }
      ghost var rendered := view.ranges;
      forall a ensures At(rendered, a) == ResolveRoot(root.value, a) {
        assert At([], a) == None;
      }
      view.Simplify();
      forall a ensures At(view.ranges, a) == ResolveRoot(root.value, a) {
        assert At(rendered, a) == At(view.ranges, a);
      }
    } else {
      view.Simplify();
      CanonicalUnique(view.ranges, []);
    }
  }
}
