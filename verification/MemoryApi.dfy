/**
  The region API of memory.c with its nested transactions: begin and commit,
  adding and removing subregions, and the setters.

  The invariant is that, unless an update is pending, every address space's
  current map is the flattened form of its region graph and its dispatch table
  reaches what the graph means, and that an update can only be pending inside a
  transaction.  The API skips the update for edits under disabled regions, so
  the proof has to show that such edits cannot be seen from any root.

  One edit can be seen and is not announced: a new address for the root of a
  space.  The invariant remembers where each root stood when its map was drawn,
  so that it says exactly which maps are out of date.
 */
module MemoryApi {
  import opened Common
  import opened Arithmetic
  import opened MemoryRegion
  import opened RegionGraph
  import opened FlatView
  import opened PhysMap
  import opened AddressSpace
  import Dispatch

  datatype Space = Space(root: RegionId, currentMap: seq<FlatRange>)

  // ---------------------------------------------------------------- what is kept

  /** Roots exist, and views are flattened. */
  ghost predicate SpacesOk(g: Graph, spaces: seq<Space>)
  {
    forall i :: 0 <= i < |spaces| ==> spaces[i].root in g && Canonical(spaces[i].currentMap)
  }

  /** The tree under `root` as it is rendered with its root at `at`. */
  ghost function TreeAt(g: Graph, rank: Ranks, root: RegionId, at: nat): Region
    requires Ranked(g, rank) && root in g
  {
    Unfold(g, rank, root).(addr := at)
  }

  /** The view of a space is that of the present graph. */
  ghost predicate MapCurrent(g: Graph, rank: Ranks, space: Space, at: nat)
    requires Ranked(g, rank) && space.root in g
  {
    IsTopology(space.currentMap, TreeAt(g, rank, space.root, at))
  }

  /** The table of space `i` is that of the present graph; a space that has none yet has an empty map. */
  ghost predicate TableCurrent(g: Graph, rank: Ranks, space: Space, at: nat, i: nat, x: Dispatch.Index)
    requires Ranked(g, rank) && space.root in g && x.Ok()
  {
    if i in x.roots then Implements(x, i, TreeAt(g, rank, space.root, at)) else space.currentMap == []
  }

  /** Some tree, drawn with its root where `at` says, answers outside what a table can name. */
  ghost predicate SomeBeyond(g: Graph, rank: Ranks, spaces: seq<Space>, at: seq<nat>)
    requires Ranked(g, rank) && SpacesOk(g, spaces) && |at| == |spaces|
  {
    exists i :: 0 <= i < |spaces| && !Fits(TreeAt(g, rank, spaces[i].root, at[i]))
  }

  /**
    All maps are those of the present graph, each drawn with its root where `at` says; so are all tables, unless a tree
    answers outside what a table can name.
   */
  ghost predicate Current(g: Graph, rank: Ranks, spaces: seq<Space>, at: seq<nat>, x: Dispatch.Index, beyond: bool)
    requires Ranked(g, rank) && SpacesOk(g, spaces) && x.Ok()
  {
    && |at| == |spaces|
    && (forall i :: 0 <= i < |spaces| ==> MapCurrent(g, rank, spaces[i], at[i]))
    && (beyond <==> SomeBeyond(g, rank, spaces, at))
    && (!beyond ==> forall i :: 0 <= i < |spaces| ==> TableCurrent(g, rank, spaces[i], at[i], i, x))
  }

  lemma SameEffectTree(g: Graph, rg: Ranks, h: Graph, rh: Ranks, r: RegionId, at: nat)
    requires Ranked(g, rg) && Ranked(h, rh) && Closed(g) && Closed(h) && SameEffect(g, h) && r in g && r in h
    ensures forall a :: ResolveRoot(TreeAt(h, rh, r, at), a) == ResolveRoot(TreeAt(g, rg, r, at), a)
  {
    hide Unfold, Resolve, Ranked, Closed, SameEffect;
    forall a ensures ResolveRoot(TreeAt(h, rh, r, at), a) == ResolveRoot(TreeAt(g, rg, r, at), a) {
      SameEffectResolve(g, rg, h, rh, r, a - at, false);
      SameRegionMoved(Unfold(g, rg, r), at, a - at);
      SameRegionMoved(Unfold(h, rh, r), at, a - at);
    }
  }

  /** Inside a region, its own address plays no part. */
  lemma SameRegionMoved(root: Region, addr: nat, offset: int)
    ensures Resolve(root.(addr := addr), offset, false) == Resolve(root, offset, false)
    ensures Resolve(root, offset, false).Some? ==> 0 <= offset < root.size
  {
  }

  /** An edit that cannot be seen leaves every space current. */
  lemma CurrentSame(g: Graph, rg: Ranks, h: Graph, rh: Ranks, spaces: seq<Space>, at: seq<nat>, x: Dispatch.Index,
                    beyond: bool)
    requires Ranked(g, rg) && Ranked(h, rh) && Closed(g) && Closed(h) && SameEffect(g, h)
    requires SpacesOk(g, spaces) && SpacesOk(h, spaces) && x.Ok()
    requires Current(g, rg, spaces, at, x, beyond)
    ensures Current(h, rh, spaces, at, x, beyond)
  {
    hide Canonical, SameEffect, Closed, Ranked, MapCurrent, TableCurrent, Fits, TreeAt;
    forall i | 0 <= i < |spaces|
      ensures MapCurrent(h, rh, spaces[i], at[i]) && (!beyond ==> TableCurrent(h, rh, spaces[i], at[i], i, x))
      ensures Fits(TreeAt(h, rh, spaces[i].root, at[i])) <==> Fits(TreeAt(g, rg, spaces[i].root, at[i]))
    {
      SpaceSame(g, rg, h, rh, spaces[i], at[i], i, x);
    }
  }

  lemma SpaceSame(g: Graph, rg: Ranks, h: Graph, rh: Ranks, space: Space, at: nat, i: nat, x: Dispatch.Index)
    requires Ranked(g, rg) && Ranked(h, rh) && Closed(g) && Closed(h) && SameEffect(g, h)
    requires space.root in g && space.root in h && x.Ok()
    ensures MapCurrent(h, rh, space, at) <==> MapCurrent(g, rg, space, at)
    ensures TableCurrent(h, rh, space, at, i, x) <==> TableCurrent(g, rg, space, at, i, x)
    ensures Fits(TreeAt(h, rh, space.root, at)) <==> Fits(TreeAt(g, rg, space.root, at))
  {
    SameEffectTree(g, rg, h, rh, space.root, at);
    hide TreeAt, Canonical, SameEffect, Closed, Ranked, ResolveRoot;
    var tg, th := TreeAt(g, rg, space.root, at), TreeAt(h, rh, space.root, at);
    assert forall a :: ResolveRoot(th, a) == ResolveRoot(tg, a);
  }

  // ---------------------------------------------------------------- rebuilding everything

  /** Where every root stands. */
  ghost function Stands(g: Graph, spaces: seq<Space>): (at: seq<nat>)
    requires SpacesOk(g, spaces)
    ensures |at| == |spaces|
  {
    seq(|spaces|, i requires 0 <= i < |spaces| => g[spaces[i].root].addr)
  }

  ghost predicate IsRoot(spaces: seq<Space>, id: RegionId)
  {
    exists i :: 0 <= i < |spaces| && spaces[i].root == id
  }

  /** Where the roots stand changes only with the address of a root. */
  lemma StandsMoved(g: Graph, h: Graph, spaces: seq<Space>, id: RegionId)
    requires SpacesOk(g, spaces) && SpacesOk(h, spaces) && id in g && id in h
    requires forall x :: x in g && x in h && x != id ==> h[x].addr == g[x].addr
    ensures Stands(h, spaces) == Stands(g, spaces) <==> h[id].addr == g[id].addr || !IsRoot(spaces, id)
  {
    if h[id].addr != g[id].addr && IsRoot(spaces, id) {
      var i :| 0 <= i < |spaces| && spaces[i].root == id;
      assert Stands(h, spaces)[i] != Stands(g, spaces)[i];
    }
  }

  lemma AttachedStands(g: Graph, spaces: seq<Space>, p: RegionId, pos: nat, s: RegionId, offset: nat, overlap: bool,
                       priority: nat)
    requires SpacesOk(g, spaces) && p in g && s in g && p != s && pos <= |g[p].subregions|
    ensures var h := Attached(g, p, pos, s, offset, overlap, priority);
            SpacesOk(h, spaces)
            && (Stands(h, spaces) == Stands(g, spaces) <==> offset == g[s].addr || !IsRoot(spaces, s))
  {
    StandsMoved(g, Attached(g, p, pos, s, offset, overlap, priority), spaces, s);
  }

  lemma DetachedStands(g: Graph, spaces: seq<Space>, p: RegionId, pos: nat, s: RegionId)
    requires SpacesOk(g, spaces) && p in g && s in g && p != s && pos < |g[p].subregions|
    ensures var h := Detached(g, p, pos, s); SpacesOk(h, spaces) && Stands(h, spaces) == Stands(g, spaces)
  {
    StandsMoved(g, Detached(g, p, pos, s), spaces, s);
  }

  /** A change of the region's place is announced: it has a parent, and both are enabled. */
  ghost predicate Shown(g: Graph, id: RegionId)
    requires id in g
  {
    var p := g[id].parent;
    p.Some? && p.value in g && g[p.value].enabled && g[id].enabled
  }

  lemma ShownIs(g: Graph, p: RegionId, id: RegionId)
    requires id in g && p in g && g[id].parent == Some(p)
    ensures Shown(g, id) <==> g[p].enabled && g[id].enabled
  {
  }

  lemma SameRoots(spaces: seq<Space>, others: seq<Space>, id: RegionId)
    requires |spaces| == |others| && forall i :: 0 <= i < |spaces| ==> others[i].root == spaces[i].root
    ensures IsRoot(others, id) <==> IsRoot(spaces, id)
  {
  }

  /** The tree of space `i` as it now stands. */
  ghost function TreeOf(g: Graph, rank: Ranks, spaces: seq<Space>, i: nat): Region
    requires Ranked(g, rank) && SpacesOk(g, spaces) && i < |spaces|
  {
    Unfold(g, rank, spaces[i].root)
  }

  /** The renderer's assertion holds for the first `n` trees. */
  ghost predicate AllDrawable(g: Graph, rank: Ranks, spaces: seq<Space>, n: nat)
    requires Ranked(g, rank) && SpacesOk(g, spaces) && n <= |spaces|
  {
    forall k :: 0 <= k < n ==> Drawable(TreeOf(g, rank, spaces, k))
  }

  lemma NoneDrawable(g: Graph, rank: Ranks, spaces: seq<Space>)
    requires Ranked(g, rank) && SpacesOk(g, spaces)
    ensures AllDrawable(g, rank, spaces, 0)
  {
  }

  lemma DrawableNext(g: Graph, rank: Ranks, spaces: seq<Space>, i: nat, view: seq<FlatRange>)
    requires Ranked(g, rank) && SpacesOk(g, spaces) && i < |spaces| && Canonical(view)
    requires AllDrawable(g, rank, spaces, i) && Drawable(TreeOf(g, rank, spaces, i))
    ensures var spaces' := spaces[i := spaces[i].(currentMap := view)];
            SpacesOk(g, spaces') && AllDrawable(g, rank, spaces', i + 1)
  {
    Redrawn(g, rank, spaces, i, view);
    hide TreeOf, Ranked, Canonical, Drawable;
  }

  /**
    The first `i` maps are redrawn. Unless one of their trees answers outside what a table can name, their tables
    implement the trees and the other tables still reach nothing.
   */
  ghost predicate Rebuilding(g: Graph, rank: Ranks, spaces: seq<Space>, x: Dispatch.Index, i: nat, beyond: bool)
    requires Ranked(g, rank) && SpacesOk(g, spaces) && x.Ok() && i <= |spaces|
  {
    && (forall k :: k in x.roots <==> 0 <= k < |spaces|)
    && (forall k :: 0 <= k < i ==> IsTopology(spaces[k].currentMap, TreeOf(g, rank, spaces, k)))
    && (beyond <==> exists k :: 0 <= k < i && !Fits(TreeOf(g, rank, spaces, k)))
    && (!beyond ==> forall k :: 0 <= k < i ==> Implements(x, k, TreeOf(g, rank, spaces, k)))
    && (!beyond ==> forall k :: i <= k < |spaces| ==> Blank(x, k))
  }

  lemma RebuildStart(g: Graph, rank: Ranks, spaces: seq<Space>, x: Dispatch.Index)
    requires Ranked(g, rank) && SpacesOk(g, spaces) && x.Ok()
    requires forall k :: k in x.roots <==> 0 <= k < |spaces|
    requires forall k :: 0 <= k < |spaces| ==> Blank(x, k)
    ensures Rebuilding(g, rank, spaces, x, 0, false)
  {
    hide Unfold, Ranked, Canonical, Blank;
  }

  /** Replacing a map changes no tree. */
  lemma Redrawn(g: Graph, rank: Ranks, spaces: seq<Space>, i: nat, view: seq<FlatRange>)
    requires Ranked(g, rank) && SpacesOk(g, spaces) && i < |spaces| && Canonical(view)
    ensures var spaces' := spaces[i := spaces[i].(currentMap := view)];
            && SpacesOk(g, spaces')
            && forall k :: 0 <= k < |spaces| ==> TreeOf(g, rank, spaces', k) == TreeOf(g, rank, spaces, k)
  {
    hide Unfold, Ranked, Canonical;
  }

  /** Updating space `i` carries the rebuild one step further. */
  lemma RebuildNext(g: Graph, rank: Ranks, spaces: seq<Space>, x0: Dispatch.Index, x1: Dispatch.Index, i: nat,
                    view: seq<FlatRange>)
    requires Ranked(g, rank) && SpacesOk(g, spaces) && x0.Ok() && x1.Ok() && i < |spaces|
    requires Rebuilding(g, rank, spaces, x0, i, false)
    requires IsTopology(view, TreeOf(g, rank, spaces, i)) && Fits(TreeOf(g, rank, spaces, i))
    requires Shows(x0, x1, i, view) && Implements(x1, i, TreeOf(g, rank, spaces, i))
    ensures var spaces' := spaces[i := spaces[i].(currentMap := view)];
            SpacesOk(g, spaces') && Rebuilding(g, rank, spaces', x1, i + 1, false)
  {
    var spaces' := spaces[i := spaces[i].(currentMap := view)];
    Redrawn(g, rank, spaces, i, view);
    hide TreeOf, Ranked, Canonical, Fits, ResolveRoot;
    forall k | 0 <= k < i + 1 ensures Implements(x1, k, TreeOf(g, rank, spaces', k)) {
      if k < i { ShowsOthers(x0, x1, i, view, k, TreeOf(g, rank, spaces, k)); }
    }
    forall k | i + 1 <= k < |spaces'| ensures Blank(x1, k) {
      ShowsBlank(x0, x1, i, view, k);
    }
  }

  /** Once a tree is beyond the tables only the maps go on. */
  lemma RebuildBeyond(g: Graph, rank: Ranks, spaces: seq<Space>, x: Dispatch.Index, i: nat, beyond: bool,
                      view: seq<FlatRange>)
    requires Ranked(g, rank) && SpacesOk(g, spaces) && x.Ok() && i < |spaces|
    requires Rebuilding(g, rank, spaces, x, i, beyond)
    requires IsTopology(view, TreeOf(g, rank, spaces, i)) && (beyond || !Fits(TreeOf(g, rank, spaces, i)))
    ensures var spaces' := spaces[i := spaces[i].(currentMap := view)];
            SpacesOk(g, spaces') && Rebuilding(g, rank, spaces', x, i + 1, true)
  {
    Redrawn(g, rank, spaces, i, view);
    hide TreeOf, Ranked, Canonical, Fits, ResolveRoot;
  }

  lemma ShowsBlank(x0: Dispatch.Index, x1: Dispatch.Index, d: RootId, view: seq<FlatRange>, e: RootId)
    requires x0.Ok() && x1.Ok() && Shows(x0, x1, d, view) && e != d && Blank(x0, e)
    ensures Blank(x1, e)
  {
    forall a | x1.Named(e, a) ensures x1.Meaning(e, a) == None {
      assert x0.Named(e, a);
    }
  }

  /** When all spaces are done everything is current, each map drawn with its root where it now stands. */
  lemma RebuildDone(g: Graph, rank: Ranks, spaces: seq<Space>, x: Dispatch.Index, beyond: bool)
    requires Ranked(g, rank) && SpacesOk(g, spaces) && x.Ok() && Rebuilding(g, rank, spaces, x, |spaces|, beyond)
    ensures Current(g, rank, spaces, Stands(g, spaces), x, beyond)
  {
    var at := Stands(g, spaces);
    forall i | 0 <= i < |spaces| ensures TreeAt(g, rank, spaces[i].root, at[i]) == TreeOf(g, rank, spaces, i) {
      UnfoldAddr(g, rank, spaces[i].root);
      hide Unfold;
    }
    hide TreeAt, TreeOf, Ranked, Canonical, Fits, ResolveRoot;
  }

  /** Attaching is a legal edit, and a hidden one unless both ends are enabled. */
  lemma AttachPlan(g: Graph, rank: Ranks, r: Ranks, p: RegionId, pos: nat, s: RegionId, offset: nat, overlap: bool,
                   priority: nat)
    requires GraphOk(g, rank) && Ranked(g, r)
    requires p in g && s in g && r[s] < r[p] && g[s].parent.None?
    requires AllIn(g, g[p].subregions) && InsertsAt(g, p, pos, priority)
    ensures var h := Attached(g, p, pos, s, offset, overlap, priority);
            && GraphOk(h, r) && Closed(g) && Closed(h) && g.Keys == h.Keys
            && ((g[p].enabled && g[s].enabled) || SameEffect(g, h))
  {
    var h := Attached(g, p, pos, s, offset, overlap, priority);
    AttachedOk(g, r, p, pos, s, offset, overlap, priority);
    RankedClosed(g, r);
    RankedClosed(h, r);
    if !(g[p].enabled && g[s].enabled) { AttachedHidden(g, p, pos, s, offset, overlap, priority); }
  }

  /** The same for detaching. */
  lemma DetachPlan(g: Graph, rank: Ranks, p: RegionId, pos: nat, s: RegionId)
    requires GraphOk(g, rank) && p in g && s in g && p != s
    requires pos < |g[p].subregions| && g[p].subregions[pos] == s
    ensures var h := Detached(g, p, pos, s);
            && GraphOk(h, rank) && Closed(g) && Closed(h) && g.Keys == h.Keys
            && ((g[p].enabled && g[s].enabled) || SameEffect(g, h))
  {
    var h := Detached(g, p, pos, s);
    DetachedOk(g, rank, p, pos, s);
    RankedClosed(g, rank);
    RankedClosed(h, rank);
    if !(g[p].enabled && g[s].enabled) { DetachedHidden(g, p, pos, s); }
  }

  class MemoryCore {
    var regions: Graph
    var depth: nat
    var pending: bool
    var spaces: seq<Space>
    var dispatcher: Dispatch.Dispatcher
    var halted: bool  // an assertion of the renderer or of the dispatch code failed
    var beyond: bool  // a tree answers outside what the tables can name, and the tables are not to be relied on
    ghost var rank: Ranks
    ghost var drawnAt: seq<nat>  // where each root stood when its map was last drawn

    ghost predicate Valid()
      reads this, dispatcher, dispatcher.pages
    {
      && GraphOk(regions, rank)
      && SpacesOk(regions, spaces)
      && dispatcher.Valid()
      && (pending || Current(regions, rank, spaces, drawnAt, dispatcher.GetIndex(), beyond))
      && (depth == 0 ==> !pending)
      && (forall k :: k in dispatcher.pages.roots ==> k < |spaces|)
    }

    /** Unless an update is pending, every map is drawn with its root where it now stands. */
    ghost predicate Placed()
      reads `regions, `spaces, `pending, `drawnAt
    {
      SpacesOk(regions, spaces) && (pending || drawnAt == Stands(regions, spaces))
    }

    /** Why the run has halted: no room in the tables, or a tree the renderer's assertion stops at. */
    ghost predicate Stopped()
      reads this, dispatcher, dispatcher.pages
    {
      && Ranked(regions, rank) && SpacesOk(regions, spaces)
      && (dispatcher.Exhausted() || exists i :: 0 <= i < |spaces| && !Drawable(TreeOf(regions, rank, spaces, i)))
    }

    /** The list of spaces has not changed, only their views. */
    twostate predicate SameSpaces()
      reads this
    {
      |spaces| == |old(spaces)| && forall i :: 0 <= i < |spaces| ==> spaces[i].root == old(spaces)[i].root
    }

    /** An empty machine. */
    constructor ()
      ensures Valid() && Placed() && !halted && depth == 0 && regions == map[] && spaces == []
    {
      regions, depth, pending, spaces, halted, beyond, rank, drawnAt := map[], 0, false, [], false, false, map[], [];
      dispatcher := new Dispatch.Dispatcher();
    }

    /** memory_region_transaction_begin. */
    method Begin()
      requires Valid()
      modifies `depth
      ensures Valid() && depth == old(depth) + 1
    {
      depth := depth + 1;
    }

    /** A fresh set of tables, one per space, all reaching nothing: core_begin and mem_begin. */
    method BeginTables() returns (disp: Dispatch.Dispatcher)
      ensures fresh(disp) && fresh(disp.pages) && disp.Valid()
      ensures forall k :: k in disp.pages.roots <==> 0 <= k < |spaces|
      ensures forall k :: 0 <= k < |spaces| ==> Blank(disp.GetIndex(), k)
    {
      disp := new Dispatch.Dispatcher();
      var i := 0;
      while i < |spaces|
        invariant i <= |spaces| && fresh(disp) && fresh(disp.pages) && disp.Valid()
        invariant forall k :: k in disp.pages.roots <==> 0 <= k < i
        invariant forall k :: 0 <= k < i ==> Blank(disp.GetIndex(), k)
      {
        ghost var x0 := disp.GetIndex();
        disp.BeginTable(i);
        forall k | 0 <= k < i ensures Blank(disp.GetIndex(), k) {
          assert Blank(x0, k);
          forall a | disp.GetIndex().Named(k, a) ensures disp.GetIndex().Meaning(k, a) == None {
            assert x0.Named(k, a);
          }
        }
        i := i + 1;
      }
    }

    /** The loop of memory_region_transaction_commit over all address spaces. */
    method Rebuild()
      requires GraphOk(regions, rank) && SpacesOk(regions, spaces)
      modifies `spaces, `dispatcher, `halted, `beyond, `drawnAt
      ensures SpacesOk(regions, spaces) && SameSpaces() && fresh(dispatcher) && fresh(dispatcher.pages)
      ensures !halted ==> dispatcher.Valid() && drawnAt == Stands(regions, spaces)
      ensures !halted ==> Current(regions, rank, spaces, drawnAt, dispatcher.GetIndex(), beyond)
      ensures !halted ==> forall k :: k in dispatcher.pages.roots <==> 0 <= k < |spaces|
      ensures !halted ==> AllDrawable(regions, rank, spaces, |spaces|)
      ensures halted ==> old(halted) || Stopped()
    {
      hide GraphOk, SpacesOk, Current, Rebuilding, Blank, AllDrawable;
      GraphRanked(regions, rank);
      NoneDrawable(regions, rank, spaces);
      var disp := BeginTables();
      dispatcher, beyond := disp, false;
      RebuildStart(regions, rank, spaces, disp.GetIndex());
      var i := 0;
      while i < |spaces|
        invariant i <= |spaces| && SpacesOk(regions, spaces) && SameSpaces() && disp.Valid()
        invariant Rebuilding(regions, rank, spaces, disp.GetIndex(), i, beyond) && AllDrawable(regions, rank, spaces, i)
        invariant halted == old(halted) && dispatcher == disp
      {
        var ok := RebuildSpace(disp, i);
        if !ok {
          halted := true;
          return;
        }
        i := i + 1;
      }
      drawnAt := Stands(regions, spaces);
      RebuildDone(regions, rank, spaces, disp.GetIndex(), beyond);
      RebuiltRoots(regions, rank, spaces, disp.GetIndex(), beyond);
    }

    /** address_space_update_topology for space `i`. */
    method RebuildSpace(disp: Dispatch.Dispatcher, i: nat) returns (ok: bool)
      requires GraphOk(regions, rank) && SpacesOk(regions, spaces) && disp.Valid() && i < |spaces| && dispatcher == disp
      requires Rebuilding(regions, rank, spaces, disp.GetIndex(), i, beyond) && AllDrawable(regions, rank, spaces, i)
      modifies `spaces, `beyond, disp, disp.pages
      ensures SpacesOk(regions, spaces) && SameSpaces()
      ensures ok ==> disp.Valid() && Rebuilding(regions, rank, spaces, disp.GetIndex(), i + 1, beyond)
      ensures ok ==> AllDrawable(regions, rank, spaces, i + 1)
      ensures !ok ==> Stopped()
    {
      hide GraphOk, Current, Rebuilding, Shows, Implements, Fits, AllDrawable;
      GraphRanked(regions, rank);
      ghost var x0, tree := disp.GetIndex(), TreeOf(regions, rank, spaces, i);
      var space := spaces[i];
      var view, end := [], Undrawable;
      if beyond {
        var v, drawable := GenerateTopology(Some(Unfold(regions, rank, space.root)));
        if drawable {
          view, end := v.ranges, Beyond;
        }
      } else {
        RebuildBlank(regions, rank, spaces, x0, i);
        view, end := UpdateTopology(disp, i, space.currentMap, Unfold(regions, rank, space.root));
      }
      ok := end == Done || end == Beyond;
      if end == Done {
        RebuildNext(regions, rank, spaces, x0, disp.GetIndex(), i, view);
      } else if end == Beyond {
        RebuildBeyond(regions, rank, spaces, x0, i, beyond, view);
        beyond := true;
      }
      if end != Undrawable {
        Redrawn(regions, rank, spaces, i, view);
        DrawableNext(regions, rank, spaces, i, view);
        spaces := spaces[i := space.(currentMap := view)];
      }
    }

    /** memory_region_transaction_commit. */
    method Commit()
      requires Valid() && !halted && depth > 0
      modifies `depth, `pending, `spaces, `dispatcher, `halted, `beyond, `drawnAt
      ensures depth == old(depth) - 1 && SameSpaces()
      ensures halted || (Valid() && pending == (depth > 0 && old(pending)) && Placed() == old(Placed()))
      ensures halted ==> depth == 0 && old(pending) && Stopped()
      ensures !halted && depth == 0 && old(pending) ==> AllDrawable(regions, rank, spaces, |spaces|)
    {
      hide GraphOk, SpacesOk, Current;
      depth := depth - 1;
      if depth == 0 && pending {
        pending := false;
        Rebuild();
      }
    }

    /** A change of the graph inside a transaction; it must be announced unless it cannot be seen. */
    method Edit(g: Graph, ghost r: Ranks, visible: bool)
      requires Valid() && (visible ==> depth > 0)
      requires GraphOk(g, r) && regions.Keys <= g.Keys && Closed(regions) && Closed(g)
      requires visible || SameEffect(regions, g)
      modifies `regions, `rank, `pending
      ensures Valid() && regions == g && rank == r && pending == (old(pending) || visible)
    {
      hide SpacesOk, GraphOk, Current, SameEffect, Closed;
      GraphRanked(regions, rank);
      GraphRanked(g, r);
      SpacesStay(regions, g, spaces);
      if !pending && !visible {
        CurrentSame(regions, rank, g, r, spaces, drawnAt, dispatcher.GetIndex(), beyond);
      }
      regions, rank, pending := g, r, pending || visible;
    }

    /** An edit in a transaction of its own. */
    method Transact(g: Graph, ghost r: Ranks, visible: bool)
      requires Valid() && !halted
      requires GraphOk(g, r) && regions.Keys <= g.Keys && Closed(regions) && Closed(g)
      requires visible || SameEffect(regions, g)
      modifies this
      ensures depth == old(depth) && SameSpaces() && (halted || Valid()) && regions == g && rank == r
      ensures halted ==> depth == 0 && Stopped()
      ensures !halted ==> pending == (depth > 0 && (old(pending) || visible))
      ensures !halted ==> (Placed() <==> old(pending) || visible || old(drawnAt) == Stands(g, old(spaces)))
    {
      hide SpacesOk, GraphOk, Current, SameEffect, Closed, Stopped;
      Begin();
      Edit(g, r, visible);
      Commit();
    }

    /** A change of one region that keeps its place in the graph. */
    method ChangeRegion(id: RegionId, info: RegionInfo, visible: bool)
      requires Valid() && depth > 0 && id in regions && KeepsShape(regions[id], info) && info.addr == regions[id].addr
      requires visible || (!regions[id].enabled && !info.enabled)
      modifies `regions, `rank, `pending
      ensures Valid() && regions == old(regions)[id := info] && rank == old(rank) && (old(Placed()) ==> Placed())
    {
      var g := regions[id := info];
      RankedClosed(regions, rank);
      ChangeOk(regions, rank, id, info);
      RankedClosed(g, rank);
      if !visible { DisabledChange(regions, id, info); }
      Edit(g, rank, visible);
    }

    // -------------------------------------------------------------- setters

    /** memory_region_set_log. */
    method SetLog(id: RegionId, log: bool, client: nat)
      requires Valid() && !halted && id in regions
      modifies this
      ensures depth == old(depth) && SameSpaces() && (halted || Valid()) && (halted ==> depth == 0 && Stopped())
      ensures !halted && old(Placed()) ==> Placed()
      ensures var info := old(regions)[id];
              regions == old(regions)[id := info.(logMask := WithBit(info.logMask, client, log))]
      ensures forall k: nat :: Bit(regions[id].logMask, k) ==
                if k == client then log else Bit(old(regions)[id].logMask, k)
    {
      hide GraphOk, SpacesOk, Current, Stopped, Placed, AllDrawable, WithBit, Bit;
      Begin();
      ChangeRegion(id, regions[id].(logMask := WithBit(regions[id].logMask, client, log)), regions[id].enabled);
      Commit();
      forall k: nat
        ensures Bit(regions[id].logMask, k) == if k == client then log else Bit(old(regions)[id].logMask, k)
      {
        WithBitIs(old(regions)[id].logMask, client, log, k);
      }
    }

    /** memory_region_set_readonly. */
    method SetReadonly(id: RegionId, readonly: bool)
      requires Valid() && !halted && id in regions
      modifies this
      ensures depth == old(depth) && SameSpaces() && (halted || Valid()) && (halted ==> depth == 0 && Stopped())
      ensures !halted && old(Placed()) ==> Placed()
      ensures regions == old(regions)[id := old(regions)[id].(readonly := readonly)]
    {
      hide GraphOk, SpacesOk, Current, Stopped, Placed, AllDrawable, WithBit;
      if regions[id].readonly != readonly {
        Begin();
        ChangeRegion(id, regions[id].(readonly := readonly), regions[id].enabled);
        Commit();
      }
    }

    /** memory_region_rom_device_set_romd. */
    method SetRomd(id: RegionId, romdMode: bool)
      requires Valid() && !halted && id in regions
      modifies this
      ensures depth == old(depth) && SameSpaces() && (halted || Valid()) && (halted ==> depth == 0 && Stopped())
      ensures !halted && old(Placed()) ==> Placed()
      ensures regions == old(regions)[id := old(regions)[id].(romdMode := romdMode)]
    {
      hide GraphOk, SpacesOk, Current, Stopped, Placed, AllDrawable, WithBit;
      if regions[id].romdMode != romdMode {
        Begin();
        ChangeRegion(id, regions[id].(romdMode := romdMode), regions[id].enabled);
        Commit();
      }
    }

    /** memory_region_set_enabled. */
    method SetEnabled(id: RegionId, enabled: bool)
      requires Valid() && !halted && id in regions
      modifies this
      ensures depth == old(depth) && SameSpaces() && (halted || Valid()) && (halted ==> depth == 0 && Stopped())
      ensures !halted && old(Placed()) ==> Placed()
      ensures regions == old(regions)[id := old(regions)[id].(enabled := enabled)]
    {
      hide GraphOk, SpacesOk, Current, Stopped, Placed, AllDrawable, WithBit;
      if enabled != regions[id].enabled {
        Begin();
        ChangeRegion(id, regions[id].(enabled := enabled), true);
        Commit();
      }
    }

    /** memory_region_set_alias_offset. */
    method SetAliasOffset(id: RegionId, offset: nat)
      requires Valid() && !halted && id in regions && regions[id].alias.Some?
      modifies this
      ensures depth == old(depth) && SameSpaces() && (halted || Valid()) && (halted ==> depth == 0 && Stopped())
      ensures !halted && old(Placed()) ==> Placed()
      ensures regions == old(regions)[id := old(regions)[id].(aliasOffset := offset)]
    {
      hide GraphOk, SpacesOk, Current, Stopped, Placed, AllDrawable, WithBit;
      var info := regions[id];
      if offset != info.aliasOffset {
        Begin();
        ChangeRegion(id, info.(aliasOffset := offset), info.enabled);
        Commit();
      }
    }

    // -------------------------------------------------------------- structure

    /** memory_region_init and its io, ram and alias variants. */
    method InitRegion(id: RegionId, size: nat, terminates: bool, alias: Option<RegionId>, aliasOffset: nat)
      requires Valid() && id !in regions
      requires alias.Some? ==> alias.value in regions
      modifies `regions, `rank, `pending
      ensures Valid() && id in regions && regions == old(regions)[id := regions[id]]
      ensures var info := regions[id];
              && info.addr == 0 && info.size == size && info.enabled && info.terminates == terminates
              && !info.readonly && info.romdMode && info.logMask == 0 && info.priority == 0 && !info.mayOverlap
              && info.parent.None? && info.alias == alias && info.aliasOffset == aliasOffset && info.subregions == []
      ensures pending == old(pending) && (old(Placed()) ==> Placed())
    {
      var info := FreshRegion(size, terminates, alias, aliasOffset);
      var g := regions[id := info];
      ghost var r := rank[id := RankAbove(rank, alias)];
      RankedClosed(regions, rank);
      FreshOk(regions, rank, id, info);
      RankedClosed(g, r);
      FreshHidden(regions, id, info);
      Edit(g, r, false);
    }

    /** The search of memory_region_add_subregion_common. */
    method InsertPosition(p: RegionId, priority: nat) returns (pos: nat)
      requires p in regions && AllIn(regions, regions[p].subregions)
      ensures InsertsAt(regions, p, pos, priority)
    {
      pos := 0;
      while pos < |regions[p].subregions| && priority < regions[regions[p].subregions[pos]].priority
        invariant pos <= |regions[p].subregions|
        invariant forall k :: 0 <= k < pos ==> priority < regions[regions[p].subregions[k]].priority
      {
        pos := pos + 1;
      }
    }

    /**
      memory_region_add_subregion and memory_region_add_subregion_overlap.  `r` ranks the regions so that `s` comes
      below `p`: the new link closes no cycle.  If `s` is the root of a space and gets a new address unannounced, its
      map stays as it was drawn.
     */
    method AddSubregion(p: RegionId, offset: nat, s: RegionId, overlap: bool, priority: nat, ghost r: Ranks)
      returns (ghost at: nat)
      requires Valid() && !halted && p in regions && s in regions && regions[s].parent.None?
      requires Ranked(regions, r) && r[s] < r[p]
      modifies this
      ensures depth == old(depth) && SameSpaces() && (halted || Valid()) && rank == r
      ensures halted ==> depth == 0 && Stopped()
      ensures AddedTo(old(regions), regions, p, s, at, offset, overlap, if overlap then priority else 0)
      ensures var shown := old(regions)[p].enabled && old(regions)[s].enabled;
              && (!halted ==> pending == (depth > 0 && (old(pending) || shown)))
              && (!halted && old(Placed()) ==>
                    (Placed() <==> old(pending) || shown || offset == old(regions)[s].addr || !IsRoot(old(spaces), s)))
    {
      hide Current, GraphOk, SpacesOk, Stands, IsRoot, Fits, IsTopology, Implements;
      RankedClosed(regions, r);
      assert AllIn(regions, regions[p].subregions);
      var q := if overlap then priority else 0;
      var pos := InsertPosition(p, q);
      var g := Attached(regions, p, pos, s, offset, overlap, q);
      var visible := regions[p].enabled && regions[s].enabled;
      AttachPlan(regions, rank, r, p, pos, s, offset, overlap, q);
      AttachedStands(regions, spaces, p, pos, s, offset, overlap, q);
      AttachIs(regions, rank, p, pos, s, offset, overlap, q);
      at := pos;
      hide *;
      Transact(g, r, visible);
    }

    method FindSubregion(p: RegionId, s: RegionId) returns (pos: nat)
      requires p in regions && s in regions[p].subregions
      ensures pos < |regions[p].subregions| && regions[p].subregions[pos] == s
    {
      pos := 0;
      while regions[p].subregions[pos] != s
        invariant pos < |regions[p].subregions| && s !in regions[p].subregions[..pos]
        decreases |regions[p].subregions| - pos
      {
        pos := pos + 1;
      }
    }

    /** memory_region_del_subregion. */
    method DelSubregion(p: RegionId, s: RegionId) returns (ghost at: nat)
      requires Valid() && !halted && p in regions && s in regions && regions[s].parent == Some(p)
      modifies this
      ensures depth == old(depth) && SameSpaces() && (halted || Valid()) && rank == old(rank)
      ensures halted ==> depth == 0 && Stopped()
      ensures RemovedFrom(old(regions), regions, p, s, at)
      ensures !halted && old(Placed()) ==> Placed()
      ensures !halted ==>
                pending == (depth > 0 && (old(pending) || (old(regions)[p].enabled && old(regions)[s].enabled)))
    {
      assert IsListed(regions, s) && BelowAll(regions, rank, regions[p].subregions, rank[p]);
      var pos := FindSubregion(p, s);
      var g := Detached(regions, p, pos, s);
      var visible := regions[p].enabled && regions[s].enabled;
      DetachPlan(regions, rank, p, pos, s);
      DetachedStands(regions, spaces, p, pos, s);
      DetachedIs(regions, p, pos, s);
      at := pos;
      hide *;
      Transact(g, rank, visible);
    }

    /** memory_region_set_address on a region without a parent: a plain store. */
    method MoveDetached(id: RegionId, addr: nat)
      requires Valid() && id in regions && regions[id].parent.None?
      modifies `regions, `rank, `pending
      ensures Valid() && rank == old(rank) && pending == old(pending)
      ensures regions == old(regions)[id := old(regions)[id].(addr := addr)]
      ensures old(Placed()) ==> (Placed() <==> pending || addr == old(regions)[id].addr || !IsRoot(spaces, id))
    {
      var info := regions[id].(addr := addr);
      var g := regions[id := info];
      RankedClosed(regions, rank);
      ChangeOk(regions, rank, id, info);
      RankedClosed(g, rank);
      DetachedMove(regions, id, addr);
      StandsMoved(regions, g, spaces, id);
      ghost var was := Placed();
      Edit(g, rank, false);
    }

    /** memory_region_set_address; of a root that moves unannounced, the map stays as it was drawn. */
    method SetAddress(id: RegionId, addr: nat)
      requires Valid() && !halted && id in regions
      modifies this
      ensures depth == old(depth) && SameSpaces() && (halted || Valid()) && (halted ==> depth == 0 && Stopped())
      ensures old(regions)[id].parent.None? ==> spaces == old(spaces) && drawnAt == old(drawnAt)
      ensures var info := old(regions)[id];
              if addr == info.addr || info.parent.None? then regions == old(regions)[id := info.(addr := addr)]
              else MovedTo(old(regions), regions, info.parent.value, id, addr)
      ensures !halted && old(Placed()) ==>
                (Placed() <==>
                  old(pending) || Shown(old(regions), id) || addr == old(regions)[id].addr || !IsRoot(old(spaces), id))
    {
      var parent := regions[id].parent;
      if addr == regions[id].addr {
        return;
      }
      if parent.None? {
        MoveDetached(id, addr);
      } else {
        assert IsListed(regions, id);
        MoveAttached(parent.value, id, addr);
      }
    }

    /** The parented case: taken out and put back in one transaction, which re-inserts it first among its equals. */
    method MoveAttached(p: RegionId, id: RegionId, addr: nat)
      requires Valid() && !halted && id in regions && p in regions && regions[id].parent == Some(p)
      modifies this
      ensures depth == old(depth) && SameSpaces() && (halted || Valid()) && (halted ==> depth == 0 && Stopped())
      ensures MovedTo(old(regions), regions, p, id, addr)
      ensures !halted && old(Placed()) ==>
                (Placed() <==>
                  old(pending) || Shown(old(regions), id) || addr == old(regions)[id].addr || !IsRoot(old(spaces), id))
    {
      hide GraphOk, SpacesOk, Current, Stopped, MovedTo, Shown, Placed;
      Begin();
      Reinsert(p, id, addr);
      Commit();
    }

    method Reinsert(p: RegionId, id: RegionId, addr: nat)
      requires Valid() && !halted && depth > 0
      requires id in regions && p in regions && regions[id].parent == Some(p)
      modifies this
      ensures depth == old(depth) && SameSpaces() && !halted && Valid()
      ensures MovedTo(old(regions), regions, p, id, addr)
      ensures old(Placed()) ==>
                (Placed() <==>
                  old(pending) || Shown(old(regions), id) || addr == old(regions)[id].addr || !IsRoot(old(spaces), id))
    {
      var priority, overlap := regions[id].priority, regions[id].mayOverlap;
      ChildRank(regions, rank, p, id);
      hide *;
      ghost var from := DelSubregion(p, id);
      GraphRanked(regions, rank);
      DetachedFacts(old(regions), regions, p, from, id);
      ghost var between, cut := spaces, regions;
      ghost var to := AddSubregion(p, addr, id, overlap, priority, rank);
      ReinsertedIs(old(regions), old(rank), cut, regions, p, id, from, to, addr);
      ShownIs(old(regions), p, id);
      SameRoots(old(spaces), between, id);
    }

    /** address_space_init. */
    method AddSpace(root: RegionId)
      requires Valid() && !halted && root in regions
      modifies this
      ensures depth == old(depth) && regions == old(regions) && (halted || Valid())
              && (halted ==> depth == 0 && Stopped())
      ensures !halted && old(Placed()) ==> Placed()
      ensures |spaces| == |old(spaces)| + 1 && spaces[|old(spaces)|].root == root
      ensures forall i :: 0 <= i < |old(spaces)| ==> spaces[i].root == old(spaces)[i].root
    {
      hide GraphOk, SpacesOk, Current, Stopped;
      Begin();
      NewSpace(root);
      Commit();
    }

    method NewSpace(root: RegionId)
      requires Valid() && depth > 0 && root in regions
      modifies `spaces, `pending, `drawnAt
      ensures Valid() && spaces == old(spaces) + [Space(root, [])] && pending == (old(pending) || regions[root].enabled)
      ensures drawnAt == old(drawnAt) + [regions[root].addr] && (old(Placed()) ==> Placed())
    {
      hide GraphOk;
      GraphRanked(regions, rank);
      if !pending && !regions[root].enabled {
        NewSpaceCurrent(regions, rank, spaces, drawnAt, dispatcher.GetIndex(), beyond, root);
      }
      SpacesGrow(regions, spaces, root);
      hide SpacesOk, Current;
      pending := pending || regions[root].enabled;
      spaces := spaces + [Space(root, [])];
      drawnAt := drawnAt + [regions[root].addr];
    }

    /**
      Rendering a root again between transactions. It gives back the current map when the root stands where it stood
      when the map was drawn; and when it has been moved since, exactly when the map is empty and stays so.
     */
    method RenderAgain(i: nat) returns (view: View, ok: bool)
      requires Valid() && !halted && depth == 0 && i < |spaces|
      ensures i < |drawnAt| && fresh(view)
      ensures var space, at, addr := spaces[i], drawnAt[i], regions[spaces[i].root].addr;
              ok ==> (view.ranges == space.currentMap <==>
                      at == addr
                      || (space.currentMap == [] && NothingEnters(TreeAt(regions, rank, space.root, at), addr)))
      ensures Placed() && ok ==> view.ranges == spaces[i].currentMap
      ensures ok <==> Drawable(TreeOf(regions, rank, spaces, i))
    {
      hide GraphOk;
      GraphRanked(regions, rank);
      var root := spaces[i].root;
      ghost var at, tree := drawnAt[i], Unfold(regions, rank, root);
      assert MapCurrent(regions, rank, spaces[i], at);
      UnfoldAddr(regions, rank, root);
      hide *;
      view, ok := GenerateTopology(Some(Unfold(regions, rank, root)));
      if ok {
        DrawnAgain(view.ranges, spaces[i].currentMap, tree, at);
      }
    }

    /**
      address_space_translate_internal: between transactions, the section found and the offset computed for an
      address are the region and offset the graph gives it, or the unassigned region when it gives none.
     */
    method Translate(i: nat, a: nat) returns (section: Dispatch.Section, xlat: int)
      requires Valid() && !halted && depth == 0 && i < |spaces| && i in dispatcher.pages.roots && a < Limit()
      requires !beyond
      ensures i < |drawnAt|
      ensures var hit := ResolveRoot(TreeAt(regions, rank, spaces[i].root, drawnAt[i]), a);
              if hit.Some?
              then section.mr == Dispatch.Guest(hit.value.mr) && xlat == hit.value.offset
                   && section.readonly == hit.value.readonly
              else section.mr == Dispatch.Unassigned
      ensures Placed() ==> TreeAt(regions, rank, spaces[i].root, drawnAt[i]) == TreeOf(regions, rank, spaces, i)
    {
      ghost var x := dispatcher.GetIndex();
      assert TableCurrent(regions, rank, spaces[i], drawnAt[i], i, x);
      ghost var tree := TreeAt(regions, rank, spaces[i].root, drawnAt[i]);
      assert x.Named(i, a) && x.Meaning(i, a) == AccessOf(ResolveRoot(tree, a));
      section := dispatcher.LookupRegion(i, a);
      xlat := a - section.address + section.offset;
      Dispatch.FoundKind(x, i, a);
    }
  }

  lemma RebuiltRoots(g: Graph, rank: Ranks, spaces: seq<Space>, x: Dispatch.Index, beyond: bool)
    requires Ranked(g, rank) && SpacesOk(g, spaces) && x.Ok() && Rebuilding(g, rank, spaces, x, |spaces|, beyond)
    ensures forall k :: k in x.roots <==> 0 <= k < |spaces|
  {
  }

  lemma RebuildBlank(g: Graph, rank: Ranks, spaces: seq<Space>, x: Dispatch.Index, i: nat)
    requires Ranked(g, rank) && SpacesOk(g, spaces) && x.Ok() && i < |spaces|
             && Rebuilding(g, rank, spaces, x, i, false)
    ensures Blank(x, i)
  {
  }

  lemma SpacesStay(g: Graph, h: Graph, spaces: seq<Space>)
    requires SpacesOk(g, spaces) && g.Keys <= h.Keys
    ensures SpacesOk(h, spaces)
  {
  }

  lemma SpacesGrow(g: Graph, spaces: seq<Space>, root: RegionId)
    requires SpacesOk(g, spaces) && root in g
    ensures SpacesOk(g, spaces + [Space(root, [])])
  {
  }

  /** A new space whose root is disabled has an empty map, which is right. */
  lemma NewSpaceCurrent(g: Graph, rank: Ranks, spaces: seq<Space>, at: seq<nat>, x: Dispatch.Index, beyond: bool,
                        root: RegionId)
    requires Ranked(g, rank) && SpacesOk(g, spaces) && x.Ok() && Current(g, rank, spaces, at, x, beyond)
    requires root in g && !g[root].enabled && |spaces| !in x.roots
    ensures SpacesOk(g, spaces + [Space(root, [])])
    ensures Current(g, rank, spaces + [Space(root, [])], at + [g[root].addr], x, beyond)
  {
    SpacesGrow(g, spaces, root);
    EmptyTopology(g, rank, root, g[root].addr);
    hide TreeAt, Ranked, Canonical, ResolveRoot, IsTopology, Implements, Fits;
    var more, at' := spaces + [Space(root, [])], at + [g[root].addr];
    forall i | 0 <= i < |more| ensures MapCurrent(g, rank, more[i], at'[i]) {
      assert i < |spaces| ==> more[i] == spaces[i] && at'[i] == at[i] && MapCurrent(g, rank, spaces[i], at[i]);
    }
    if beyond {
      var i :| 0 <= i < |spaces| && !Fits(TreeAt(g, rank, spaces[i].root, at[i]));
      assert !Fits(TreeAt(g, rank, more[i].root, at'[i]));
    } else {
      forall i | 0 <= i < |more|
        ensures Fits(TreeAt(g, rank, more[i].root, at'[i])) && TableCurrent(g, rank, more[i], at'[i], i, x)
      {
        assert i < |spaces| ==>
                 more[i] == spaces[i] && at'[i] == at[i] && TableCurrent(g, rank, spaces[i], at[i], i, x);
      }
    }
  }

  lemma DrawnAgain(view: seq<FlatRange>, current: seq<FlatRange>, tree: Region, at: nat)
    requires IsTopology(view, tree) && IsTopology(current, tree.(addr := at))
    ensures at == tree.addr ==> view == current
    ensures at != tree.addr ==> (view == current <==> current == [] && NothingEnters(tree.(addr := at), tree.addr))
  {
    if at == tree.addr {
      assert tree.(addr := at) == tree;
      TopologyUnique(view, current, tree, tree);
    } else {
      var drawn := tree.(addr := at);
      assert drawn.(addr := tree.addr) == tree;
      RootMoveStale(current, drawn, tree.addr);
      if IsTopology(current, tree) { TopologyUnique(view, current, tree, tree); }
    }
  }

  // ---------------------------------------------------------------- moving a root

  /** Nothing lies below the first range of a view or above its last. */
  lemma OutsideView(view: seq<FlatRange>, a: int)
    requires WellFormed(view) && view != []
    requires a < view[0].addr.start || view[|view| - 1].addr.End() <= a
    ensures At(view, a) == None
  {
    AtNone(view, a);
    forall i | 0 <= i < |view| ensures !view[i].addr.Contains(a) {
      if i > 0 { assert view[0].addr.End() <= view[i].addr.start; }
      if i < |view| - 1 { assert view[i].addr.End() <= view[|view| - 1].addr.start; }
    }
  }

  /** Moving the root to `addr` brings nothing down from beyond the last address. */
  ghost predicate NothingEnters(root: Region, addr: nat)
  {
    forall o :: TWO_64 - root.addr <= o < TWO_64 - addr ==> Resolve(root, o, false) == None
  }

  /** That is so of every move up, and of every root that ends within the address space. */
  lemma NothingEntersUsual(root: Region, addr: nat)
    requires root.addr <= addr || root.addr + root.size <= TWO_64
    ensures NothingEnters(root, addr)
  {
  }

  /**
    memory_region_set_address stores the address of an unparented region without an update.  For a root this leaves
    the map right exactly when the map is empty and stays so.
   */
  lemma RootMoveStale(view: seq<FlatRange>, root: Region, addr: nat)
    requires IsTopology(view, root) && addr != root.addr
    ensures IsTopology(view, root.(addr := addr)) <==> view == [] && NothingEnters(root, addr)
    ensures root.addr <= addr || root.addr + root.size <= TWO_64 ==>
              (IsTopology(view, root.(addr := addr)) <==> view == [])
  {
    if root.addr <= addr || root.addr + root.size <= TWO_64 { NothingEntersUsual(root, addr); }
    var moved, shift := root.(addr := addr), addr - root.addr;
    if view == [] {
      EmptyMoved(root, addr);
    } else {
      var start := view[0].addr.start;
      var a := if shift > 0 then start else start + shift;
      AtIndex(view, 0, start);
      OutsideView(view, start - (if shift > 0 then shift else -shift));
      assert At(view, start) == ResolveRoot(root, start) && At(view, a - shift) == ResolveRoot(root, a - shift);
      assert At(view, a) != ResolveRoot(moved, a) by {
        SameRegionMoved(root, addr, a - addr);
        hide Resolve, At;
      }
    }
  }

  /**
    The same happens when memory_region_add_subregion gives a root its place under a parent, if one of the two is
    disabled: the edit is not announced, since nothing is seen through the parent, but the root itself has moved.
   */
  lemma RootAttachStale(g: Graph, rg: Ranks, h: Graph, rh: Ranks, s: RegionId, view: seq<FlatRange>)
    requires Ranked(g, rg) && Ranked(h, rh) && Closed(g) && Closed(h) && SameEffect(g, h) && s in g && s in h
    requires IsTopology(view, Unfold(g, rg, s)) && h[s].addr != g[s].addr
    ensures IsTopology(view, Unfold(h, rh, s)) <==> view == [] && NothingEnters(Unfold(g, rg, s), h[s].addr)
  {
    var was, now, at := Unfold(g, rg, s), Unfold(h, rh, s), h[s].addr;
    UnfoldAddr(g, rg, s);
    UnfoldAddr(h, rh, s);
    SameEffectTree(g, rg, h, rh, s, at);
    RootMoveStale(view, was, at);
    assert TreeAt(h, rh, s, at) == now && TreeAt(g, rg, s, at) == was.(addr := at);
    hide *;
    SameTopology(view, was.(addr := at), now);
  }

  lemma SameTopology(view: seq<FlatRange>, r1: Region, r2: Region)
    requires forall a :: ResolveRoot(r2, a) == ResolveRoot(r1, a)
    ensures IsTopology(view, r2) <==> IsTopology(view, r1)
  {
    hide ResolveRoot, Canonical;
  }

  lemma EmptyMoved(root: Region, addr: nat)
    requires IsTopology([], root)
    ensures IsTopology([], root.(addr := addr)) <==> NothingEnters(root, addr)
  {
    var view: seq<FlatRange>, moved := [], root.(addr := addr);
    forall a ensures ResolveRoot(moved, a) == if 0 <= a < TWO_64 then Resolve(root, a - addr, false) else None {
      SameRegionMoved(root, addr, a - addr);
    }
    if NothingEnters(root, addr) {
      forall a ensures At(view, a) == ResolveRoot(moved, a) {
        var o := a - addr;
        SameRegionMoved(root, addr, o);
        assert At(view, o + root.addr) == ResolveRoot(root, o + root.addr);
      }
    }
    if IsTopology(view, moved) {
      forall o | TWO_64 - root.addr <= o < TWO_64 - addr ensures Resolve(root, o, false) == None {
        SameRegionMoved(root, addr, o);
        assert At(view, o + addr) == ResolveRoot(moved, o + addr);
      }
    }
  }

  /** A root with one byte of RAM, moved by one: the map still shows the byte at its old address. */
  lemma RootMoveExample()
    ensures var ram := Region(1, 0, 1, true, true, false, true, 0, None, 0, []);
            var view := [FlatRange(1, 0, AddrRange(0, 1), 0, true, false)];
            IsTopology(view, ram) && !IsTopology(view, ram.(addr := 1))
  {
    var ram := Region(1, 0, 1, true, true, false, true, 0, None, 0, []);
    var view := [FlatRange(1, 0, AddrRange(0, 1), 0, true, false)];
    forall a ensures At(view, a) == ResolveRoot(ram, a) {
      AtSingle(view[0], a);
    }
    RootMoveStale(view, ram, 1);
  }

  lemma GraphRanked(g: Graph, rank: Ranks)
    requires GraphOk(g, rank)
    ensures Ranked(g, rank)
  {
  }

  lemma ChildRank(g: Graph, rank: Ranks, p: RegionId, id: RegionId)
    requires GraphOk(g, rank) && id in g && p in g && g[id].parent == Some(p)
    ensures id in rank && p in rank && rank[id] < rank[p] && p != id
  {
    assert IsListed(g, id) && BelowAll(g, rank, g[p].subregions, rank[p]);
  }

  lemma AttachIs(g: Graph, rank: Ranks, p: RegionId, pos: nat, s: RegionId, offset: nat, overlap: bool, q: nat)
    requires GraphOk(g, rank) && p in g && s in g && p != s && AllIn(g, g[p].subregions) && InsertsAt(g, p, pos, q)
    ensures AddedTo(g, Attached(g, p, pos, s, offset, overlap, q), p, s, pos, offset, overlap, q)
  {
    AttachedIs(g, p, pos, s, offset, overlap, q);
  }

  lemma DetachedFacts(g: Graph, h: Graph, p: RegionId, pos: nat, id: RegionId)
    requires RemovedFrom(g, h, p, id, pos)
    ensures p in h && id in h && h[id].parent.None? && h[id].addr == g[id].addr
    ensures h[id].enabled == g[id].enabled && h[p].enabled == g[p].enabled
  {
  }

  lemma ReinsertedIs(g: Graph, rank: Ranks, m: Graph, h: Graph, p: RegionId, s: RegionId, from: nat, to: nat, addr: nat)
    requires GraphOk(g, rank) && RemovedFrom(g, m, p, s, from) && g[s].parent == Some(p)
    requires AddedTo(m, h, p, s, to, addr, g[s].mayOverlap, if g[s].mayOverlap then g[s].priority else 0)
    ensures MovedTo(g, h, p, s, addr)
  {
    assert ListsChildren(g, p);
    OutAndIn(g, m, h, p, s, from, to, addr);
  }

  /** A disabled root maps nothing. */
  lemma EmptyTopology(g: Graph, rank: Ranks, root: RegionId, at: nat)
    requires Ranked(g, rank) && root in g && !g[root].enabled
    ensures IsTopology([], TreeAt(g, rank, root, at)) && Fits(TreeAt(g, rank, root, at))
  {
    UnfoldAddr(g, rank, root);
    hide Unfold;
  }

  /** The dirty log mask with the bit of one client set or cleared. */
  function WithBit(mask: nat, client: nat, on: bool): nat
  {
    var bit := Power2(client);
    var cleared := if (mask / bit) % 2 == 1 then mask - bit else mask;
    if on then cleared + bit else cleared
  }

  /** Whether the client logs. */
  predicate Bit(mask: nat, client: nat)
  {
    if client == 0 then mask % 2 == 1 else Bit(mask / 2, client - 1)
  }

  /** The client's bit is what was asked for, and every other client's is as it was. */
  lemma {:induction false} WithBitIs(mask: nat, client: nat, on: bool, k: nat)
    ensures Bit(WithBit(mask, client, on), k) == if k == client then on else Bit(mask, k)
    decreases client
  {
    BitOf(mask / 2, mask % 2, k);
    if client > 0 {
      WithBitHalf(mask, client, on);
      BitOf(WithBit(mask / 2, client - 1, on), mask % 2, k);
      hide WithBit, Bit;
      if k > 0 { WithBitIs(mask / 2, client - 1, on, k - 1); }
    } else {
      WithBitLow(mask, client, on);
      BitOf(mask / 2, if on then 1 else 0, k);
      hide WithBit, Bit;
    }
  }

  lemma BitOf(half: nat, low: nat, k: nat)
    requires low < 2
    ensures Bit(2 * half + low, k) == if k == 0 then low == 1 else Bit(half, k - 1)
  {
  }

  lemma WithBitLow(mask: nat, client: nat, on: bool)
    requires client == 0
    ensures WithBit(mask, client, on) == 2 * (mask / 2) + if on then 1 else 0
  {
  }

  lemma WithBitHalf(mask: nat, client: nat, on: bool)
    requires client > 0
    ensures WithBit(mask, client, on) == 2 * WithBit(mask / 2, client - 1, on) + mask % 2
  {
    var bit := Power2(client - 1);
    DivDiv(mask, 2, bit);
    assert Power2(client) == 2 * bit;
  }

  function Power2(n: nat): (p: nat)
    ensures p >= 1
  {
    if n == 0 then 1 else 2 * Power2(n - 1)
  }
}
