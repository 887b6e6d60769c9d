/**
  The mutable region graph behind the trees the renderer walks, and when an
  edit of it can be seen from a root.

  Regions refer to each other by identity, so one region may be reached along
  several alias paths.  `Unfold` spells out the tree under a region; it needs the
  graph to be acyclic, which is carried as a ranking of the regions.
 */
module RegionGraph {
  import opened Common
  import opened MemoryRegion

  datatype RegionInfo = RegionInfo(
    addr: nat,
    size: nat,
    enabled: bool,
    terminates: bool,
    readonly: bool,
    romdMode: bool,
    logMask: nat,
    priority: nat,
    mayOverlap: bool,
    parent: Option<RegionId>,
    alias: Option<RegionId>,
    aliasOffset: nat,
    subregions: seq<RegionId>)

  type Graph = map<RegionId, RegionInfo>
  type Ranks = map<RegionId, nat>

  // ---------------------------------------------------------------- shape

  predicate AllIn(g: Graph, ids: seq<RegionId>)
  {
    forall k :: 0 <= k < |ids| ==> ids[k] in g
  }

  ghost predicate Closed(g: Graph)
  {
    forall id :: id in g ==> AllIn(g, g[id].subregions)
  }

  ghost predicate BelowAll(g: Graph, rank: Ranks, ids: seq<RegionId>, bound: nat)
  {
    forall k :: 0 <= k < |ids| ==> ids[k] in g && ids[k] in rank && rank[ids[k]] < bound
  }

  /** Aliases and subregions rank below the region that refers to them. */
  ghost predicate Ranked(g: Graph, rank: Ranks)
  {
    forall id :: id in g ==>
      && id in rank
      && (g[id].alias.Some? ==> BelowAll(g, rank, [g[id].alias.value], rank[id]))
      && BelowAll(g, rank, g[id].subregions, rank[id])
  }

  predicate Distinct(ids: seq<RegionId>)
  {
    forall k, l :: 0 <= k < l < |ids| ==> ids[k] != ids[l]
  }

  predicate Falling(g: Graph, ids: seq<RegionId>)
    requires AllIn(g, ids)
  {
    forall k, l :: 0 <= k < l < |ids| ==> g[ids[k]].priority >= g[ids[l]].priority
  }

  predicate HaveParent(g: Graph, ids: seq<RegionId>, p: RegionId)
    requires AllIn(g, ids)
  {
    forall k :: 0 <= k < |ids| ==> g[ids[k]].parent == Some(p)
  }

  /** `p` lists its children once each, in order of falling priority, and they name it as their parent. */
  ghost predicate ListsChildren(g: Graph, p: RegionId)
    requires p in g
  {
    var subs := g[p].subregions;
    AllIn(g, subs) && HaveParent(g, subs, p) && Distinct(subs) && Falling(g, subs)
  }

  /** A region with a parent is listed there. */
  ghost predicate IsListed(g: Graph, s: RegionId)
    requires s in g
  {
    g[s].parent.Some? ==> g[s].parent.value in g && s in g[g[s].parent.value].subregions
  }

  ghost predicate Linked(g: Graph)
  {
    && (forall p :: p in g ==> ListsChildren(g, p))
    && (forall s :: s in g ==> IsListed(g, s))
  }

  ghost predicate GraphOk(g: Graph, rank: Ranks)
  {
    Ranked(g, rank) && Linked(g)
  }

  // ---------------------------------------------------------------- trees

  function Unfold(g: Graph, ghost rank: Ranks, id: RegionId): (mr: Region)
    requires Ranked(g, rank) && id in g
    decreases rank[id]
  {
    var info := g[id];
    Region(id, info.addr, info.size, info.enabled, info.terminates, info.readonly, info.romdMode, info.logMask,
           if info.alias.Some? then
             assert [info.alias.value][0] == info.alias.value;
             Some(Unfold(g, rank, info.alias.value))
           else None,
           info.aliasOffset,
           seq(|info.subregions|, i requires 0 <= i < |info.subregions| => Unfold(g, rank, info.subregions[i])))
  }

  function UnfoldAll(g: Graph, ghost rank: Ranks, ids: seq<RegionId>): (mrs: seq<Region>)
    requires Ranked(g, rank) && AllIn(g, ids)
  {
    seq(|ids|, i requires 0 <= i < |ids| => Unfold(g, rank, ids[i]))
  }

  lemma UnfoldParts(g: Graph, rank: Ranks, id: RegionId)
    requires Ranked(g, rank) && id in g
    ensures BelowAll(g, rank, g[id].subregions, rank[id])
    ensures Unfold(g, rank, id).subregions == UnfoldAll(g, rank, g[id].subregions)
    ensures g[id].alias.Some? ==>
              g[id].alias.value in g && g[id].alias.value in rank && rank[g[id].alias.value] < rank[id]
                                  && Unfold(g, rank, id).alias == Some(Unfold(g, rank, g[id].alias.value))
  {
    if g[id].alias.Some? {
      assert [g[id].alias.value][0] == g[id].alias.value;
    }
  }

  lemma UnfoldAddr(g: Graph, rank: Ranks, id: RegionId)
    requires Ranked(g, rank) && id in g
    ensures Unfold(g, rank, id).addr == g[id].addr && Unfold(g, rank, id).size == g[id].size
    ensures Unfold(g, rank, id).enabled == g[id].enabled
  {
  }

  // ---------------------------------------------------------------- edits that cannot be seen

  /** The enabled regions of a list. */
  function Active(g: Graph, ids: seq<RegionId>): (act: seq<RegionId>)
    requires AllIn(g, ids)
    ensures AllIn(g, act) && forall id :: id in act ==> id in ids && id in g
  {
    if ids == [] then []
    else (if g[ids[0]].enabled then [ids[0]] else []) + Active(g, ids[1..])
  }

  /** What the renderer reads of an enabled region itself. */
  predicate SameFields(a: RegionInfo, b: RegionInfo)
  {
    && a.size == b.size && a.terminates == b.terminates && a.readonly == b.readonly
    && a.romdMode == b.romdMode && a.logMask == b.logMask
    && a.alias == b.alias && a.aliasOffset == b.aliasOffset
  }

  ghost predicate SameRegion(g: Graph, h: Graph, id: RegionId)
    requires id in g && id in h && AllIn(g, g[id].subregions) && AllIn(h, h[id].subregions)
  {
    && h[id].enabled == g[id].enabled
    && (g[id].enabled ==>
          && SameFields(g[id], h[id])
          && Active(g, g[id].subregions) == Active(h, h[id].subregions)
          && forall s :: s in Active(g, g[id].subregions) ==> s in h && h[s].addr == g[s].addr)
  }

  /**
    `h` differs from `g` only under disabled regions, in where detached regions would be placed, and in new regions.
   */
  ghost predicate SameEffect(g: Graph, h: Graph)
    requires Closed(g) && Closed(h)
  {
    g.Keys <= h.Keys && forall id :: id in g ==> SameRegion(g, h, id)
  }

  lemma UnfoldNone(g: Graph, rank: Ranks)
    requires Ranked(g, rank)
    ensures UnfoldAll(g, rank, []) == []
  {
  }

  lemma UnfoldAllSplit(g: Graph, rank: Ranks, ids: seq<RegionId>)
    requires Ranked(g, rank) && AllIn(g, ids) && ids != []
    ensures UnfoldAll(g, rank, ids)[0] == Unfold(g, rank, ids[0])
    ensures UnfoldAll(g, rank, ids)[1..] == UnfoldAll(g, rank, ids[1..])
  {
    hide Unfold, Ranked;
  }

  /** One more region at the front of a list. */
  lemma ResolveFirstSplit(g: Graph, rank: Ranks, ids: seq<RegionId>, offset: int, readonly: bool)
    requires Ranked(g, rank) && AllIn(g, ids) && ids != []
    ensures ResolveFirst(UnfoldAll(g, rank, ids), offset, readonly) ==
            var first := Resolve(Unfold(g, rank, ids[0]), offset - g[ids[0]].addr, readonly);
            if first.Some? then first else ResolveFirst(UnfoldAll(g, rank, ids[1..]), offset, readonly)
  {
    UnfoldAllSplit(g, rank, ids);
    assert Unfold(g, rank, ids[0]).addr == g[ids[0]].addr;
  }

  lemma DisabledResolve(g: Graph, rank: Ranks, id: RegionId, offset: int, readonly: bool)
    requires Ranked(g, rank) && id in g && !g[id].enabled
    ensures Resolve(Unfold(g, rank, id), offset, readonly) == None
  {
  }

  /** Disabled subregions have no say. */
  lemma {:induction false} ActiveDecides(g: Graph, rank: Ranks, ids: seq<RegionId>, offset: int, readonly: bool)
    requires Ranked(g, rank) && AllIn(g, ids)
    ensures ResolveFirst(UnfoldAll(g, rank, ids), offset, readonly)
            == ResolveFirst(UnfoldAll(g, rank, Active(g, ids)), offset, readonly)
    decreases |ids|
  {
    hide Ranked, Resolve, ResolveFirst, Unfold, UnfoldAll, AllIn;
    if ids != [] {
      var rest := ids[1..];
      AllInRest(g, ids);
      ActiveDecides(g, rank, rest, offset, readonly);
      ResolveFirstSplit(g, rank, ids, offset, readonly);
      if g[ids[0]].enabled {
        assert Active(g, ids)[1..] == Active(g, rest);
        ResolveFirstSplit(g, rank, Active(g, ids), offset, readonly);
      } else {
        DisabledResolve(g, rank, ids[0], offset - g[ids[0]].addr, readonly);
        assert Active(g, ids) == Active(g, rest);
      }
    }
  }

  lemma AllInRest(g: Graph, ids: seq<RegionId>)
    requires AllIn(g, ids) && ids != []
    ensures ids[0] in g && AllIn(g, ids[1..])
  {
  }

  lemma RankedClosed(g: Graph, rank: Ranks)
    requires Ranked(g, rank)
    ensures Closed(g)
  {
    forall id | id in g ensures AllIn(g, g[id].subregions) {
      assert BelowAll(g, rank, g[id].subregions, rank[id]);
    }
  }

  lemma SameEffectFields(g: Graph, h: Graph, id: RegionId)
    requires Closed(g) && Closed(h) && SameEffect(g, h) && id in g
    ensures id in h && h[id].enabled == g[id].enabled
    ensures g[id].enabled ==> && h[id].size == g[id].size && h[id].readonly == g[id].readonly
                              && h[id].alias == g[id].alias && h[id].aliasOffset == g[id].aliasOffset
    ensures g[id].enabled ==> forall inner, offset, ro ::
              OrOwn(inner, id, h[id], offset, ro) == OrOwn(inner, id, g[id], offset, ro)
  {
    assert SameRegion(g, h, id);
  }

  /** Graphs with the same effect mean the same under every region. */
  lemma {:induction false} SameEffectResolve(g: Graph, rg: Ranks, h: Graph, rh: Ranks, id: RegionId, offset: int,
                                             readonly: bool)
    requires Ranked(g, rg) && Ranked(h, rh) && Closed(g) && Closed(h) && SameEffect(g, h) && id in g
    ensures Resolve(Unfold(g, rg, id), offset, readonly) == Resolve(Unfold(h, rh, id), offset, readonly)
    decreases rg[id], 1
  {
    hide *;
    SameEffectFields(g, h, id);
    ResolveInfo(g, rg, id, offset, readonly);
    ResolveInfo(h, rh, id, offset, readonly);
    UnfoldParts(g, rg, id);
    if g[id].enabled && 0 <= offset < g[id].size {
      var ro := readonly || g[id].readonly;
      if g[id].alias.Some? {
        SameEffectResolve(g, rg, h, rh, g[id].alias.value, offset + g[id].aliasOffset, ro);
      } else {
        SameEffectSubs(g, rg, h, rh, id, offset, ro);
      }
    }
  }

  /** A region's own answer where its subregions have none. */
  function OrOwn(inner: Option<Hit>, id: RegionId, info: RegionInfo, offset: int, ro: bool): Option<Hit>
  {
    if inner.Some? then inner
    else if info.terminates then Some(Hit(id, offset, ro, info.romdMode, info.logMask))
    else None
  }

  /** `Resolve`, one level down the graph. */
  lemma ResolveInfo(g: Graph, rank: Ranks, id: RegionId, offset: int, readonly: bool)
    requires Ranked(g, rank) && id in g
    ensures g[id].alias.Some? ==> g[id].alias.value in g
    ensures AllIn(g, g[id].subregions)
    ensures !g[id].enabled || !(0 <= offset < g[id].size) ==> Resolve(Unfold(g, rank, id), offset, readonly) == None
    ensures g[id].enabled && 0 <= offset < g[id].size && g[id].alias.Some? ==>
              Resolve(Unfold(g, rank, id), offset, readonly) ==
              Resolve(Unfold(g, rank, g[id].alias.value), offset + g[id].aliasOffset, readonly || g[id].readonly)
    ensures g[id].enabled && 0 <= offset < g[id].size && g[id].alias.None? ==>
              var ro := readonly || g[id].readonly;
              Resolve(Unfold(g, rank, id), offset, readonly) ==
              OrOwn(ResolveFirst(UnfoldAll(g, rank, g[id].subregions), offset, ro), id, g[id], offset, ro)
  {
    UnfoldParts(g, rank, id);
  }

  lemma {:induction false} SameEffectSubs(g: Graph, rg: Ranks, h: Graph, rh: Ranks, id: RegionId, offset: int, ro: bool)
    requires Ranked(g, rg) && Ranked(h, rh) && Closed(g) && Closed(h) && SameEffect(g, h) && id in g && g[id].enabled
    ensures ResolveFirst(UnfoldAll(g, rg, g[id].subregions), offset, ro)
            == ResolveFirst(UnfoldAll(h, rh, h[id].subregions), offset, ro)
    decreases rg[id], 0
  {
    assert SameRegion(g, h, id);
    assert BelowAll(g, rg, g[id].subregions, rg[id]);
    ActiveDecides(g, rg, g[id].subregions, offset, ro);
    ActiveDecides(h, rh, h[id].subregions, offset, ro);
    SameEffectActive(g, rg, h, rh, Active(g, g[id].subregions), rg[id], offset, ro);
  }

  lemma {:induction false} SameEffectActive(g: Graph, rg: Ranks, h: Graph, rh: Ranks, act: seq<RegionId>, bound: nat,
                                            offset: int, ro: bool)
    requires Ranked(g, rg) && Ranked(h, rh) && Closed(g) && Closed(h) && SameEffect(g, h)
    requires AllIn(g, act) && AllIn(h, act) && forall s :: s in act ==> h[s].addr == g[s].addr && rg[s] < bound
    ensures ResolveFirst(UnfoldAll(g, rg, act), offset, ro) == ResolveFirst(UnfoldAll(h, rh, act), offset, ro)
    decreases bound, 0, |act|
  {
    hide Resolve, ResolveFirst, Unfold, UnfoldAll, Ranked, Closed, SameEffect;
    if act == [] {
      UnfoldNone(g, rg);
      UnfoldNone(h, rh);
    } else {
      assert act[0] in act && AllIn(g, act[1..]) && AllIn(h, act[1..]);
      SameEffectResolve(g, rg, h, rh, act[0], offset - g[act[0]].addr, ro);
      SameEffectActive(g, rg, h, rh, act[1..], bound, offset, ro);
      ResolveFirstSplit(g, rg, act, offset, ro);
      ResolveFirstSplit(h, rh, act, offset, ro);
    }
  }

  // ---------------------------------------------------------------- what attaching and detaching do

  /**
    `s` has become a subregion of `p` with the given address, overlap flag and priority `q`, listed at `at`, behind
    exactly the siblings of higher priority. Nothing else of it has changed, and nothing of any other region.
   */
  ghost predicate AddedTo(g: Graph, h: Graph, p: RegionId, s: RegionId, at: nat, addr: nat, overlap: bool, q: nat)
  {
    && p in g && s in g && p != s && h.Keys == g.Keys && at <= |g[p].subregions|
    && h[s] == g[s].(parent := Some(p), addr := addr, mayOverlap := overlap, priority := q)
    && h[p] == g[p].(subregions := g[p].subregions[..at] + [s] + g[p].subregions[at..])
    && (forall x :: x in g && x != s && x != p ==> h[x] == g[x])
    && Behind(g, g[p].subregions, at, q)
  }

  /** The first `at` regions, and no others, have a higher priority than `q`. */
  ghost predicate Behind(g: Graph, ids: seq<RegionId>, at: nat, q: nat)
  {
    forall k :: 0 <= k < |ids| ==> ids[k] in g && (q < g[ids[k]].priority <==> k < at)
  }

  /** `s` is no longer a subregion of `p`, where it was listed at `at`. Nothing else has changed. */
  ghost predicate RemovedFrom(g: Graph, h: Graph, p: RegionId, s: RegionId, at: nat)
  {
    && p in g && s in g && p != s && h.Keys == g.Keys && at < |g[p].subregions| && g[p].subregions[at] == s
    && h[s] == g[s].(parent := None)
    && h[p] == g[p].(subregions := g[p].subregions[..at] + g[p].subregions[at + 1..])
    && forall x :: x in g && x != s && x != p ==> h[x] == g[x]
  }

  /**
    `s`, a subregion of `p`, has a new address. It keeps its priority if it may overlap, and has priority 0 if not; it
    is listed behind exactly the siblings of higher priority. Nothing else has changed.
   */
  ghost predicate MovedTo(g: Graph, h: Graph, p: RegionId, s: RegionId, addr: nat)
  {
    && p in g && s in g && p != s && h.Keys == g.Keys
    && var q := if g[s].mayOverlap then g[s].priority else 0;
       && h[s] == g[s].(addr := addr, priority := q)
       && (forall x :: x in g && x != s && x != p ==> h[x] == g[x])
       && exists from: nat, to: nat :: Relisted(g, h, p, s, q, from, to)
  }

  ghost predicate Relisted(g: Graph, h: Graph, p: RegionId, s: RegionId, q: nat, from: nat, to: nat)
    requires p in g && p in h
  {
    && from < |g[p].subregions| && g[p].subregions[from] == s
    && var rest := g[p].subregions[..from] + g[p].subregions[from + 1..];
       && to <= |rest| && h[p] == g[p].(subregions := rest[..to] + [s] + rest[to..]) && Behind(g, rest, to, q)
  }

  lemma AttachedIs(g: Graph, p: RegionId, pos: nat, s: RegionId, offset: nat, overlap: bool, priority: nat)
    requires Linked(g) && p in g && s in g && p != s && AllIn(g, g[p].subregions) && InsertsAt(g, p, pos, priority)
    ensures AddedTo(g, Attached(g, p, pos, s, offset, overlap, priority), p, s, pos, offset, overlap, priority)
  {
    var subs := g[p].subregions;
    assert ListsChildren(g, p);
    forall k | 0 <= k < |subs| ensures subs[k] in g && (priority < g[subs[k]].priority <==> k < pos) {
      assert pos < k ==> g[subs[pos]].priority >= g[subs[k]].priority;
    }
    hide Linked;
  }

  lemma DetachedIs(g: Graph, p: RegionId, pos: nat, s: RegionId)
    requires p in g && s in g && p != s && pos < |g[p].subregions| && g[p].subregions[pos] == s
    ensures RemovedFrom(g, Detached(g, p, pos, s), p, s, pos)
  {
  }

  /** Out and back in is a move. */
  lemma OutAndIn(g: Graph, m: Graph, h: Graph, p: RegionId, s: RegionId, from: nat, to: nat, addr: nat)
    requires RemovedFrom(g, m, p, s, from) && g[s].parent == Some(p) && AllIn(g, g[p].subregions)
    requires HaveParent(g, g[p].subregions, p) && Distinct(g[p].subregions)
    requires AddedTo(m, h, p, s, to, addr, g[s].mayOverlap, if g[s].mayOverlap then g[s].priority else 0)
    ensures MovedTo(g, h, p, s, addr)
  {
    var q := if g[s].mayOverlap then g[s].priority else 0;
    var subs := g[p].subregions;
    var rest := subs[..from] + subs[from + 1..];
    forall k | 0 <= k < |rest| ensures rest[k] in g && (q < g[rest[k]].priority <==> k < to) {
      assert rest[k] == subs[if k < from then k else k + 1];
      assert rest[k] in m && (q < m[rest[k]].priority <==> k < to);
    }
    assert Relisted(g, h, p, s, q, from, to);
  }

  /**
    A region added with overlap and priority `q` that is moved afterwards still has that priority, and comes before
    every sibling of at most that priority, so it still obscures what it obscured where they meet.
   */
  lemma PriorityKept(g: Graph, h: Graph, k: Graph, p: RegionId, s: RegionId, at: nat, offset: nat, q: nat, addr: nat)
    requires AddedTo(g, h, p, s, at, offset, true, q) && MovedTo(h, k, p, s, addr)
    ensures k[s].priority == q && k[s].mayOverlap && k[s].addr == addr && k[s].parent == Some(p)
    ensures exists to: nat :: to < |k[p].subregions| && k[p].subregions[to] == s
                              && forall j :: to < j < |k[p].subregions| ==>
                                   k[p].subregions[j] in h && h[k[p].subregions[j]].priority <= q
  {
    assert h[s].mayOverlap && h[s].priority == q && p in k.Keys;
    var from: nat, to: nat :| Relisted(h, k, p, s, q, from, to);
    RelistedBefore(h, k, p, s, q, from, to);
  }

  lemma RelistedBefore(g: Graph, h: Graph, p: RegionId, s: RegionId, q: nat, from: nat, to: nat)
    requires p in g && p in h && Relisted(g, h, p, s, q, from, to)
    ensures to < |h[p].subregions| && h[p].subregions[to] == s
    ensures forall j :: to < j < |h[p].subregions| ==> h[p].subregions[j] in g && g[h[p].subregions[j]].priority <= q
  {
    var rest := g[p].subregions[..from] + g[p].subregions[from + 1..];
    forall j | to < j < |h[p].subregions|
      ensures h[p].subregions[j] in g && g[h[p].subregions[j]].priority <= q
    {
      assert h[p].subregions[j] == rest[j - 1];
    }
  }

  // ---------------------------------------------------------------- edits

  /** A change of one region that leaves its place in the graph alone. */
  predicate KeepsShape(a: RegionInfo, b: RegionInfo)
  {
    && b.parent == a.parent && b.subregions == a.subregions && b.priority == a.priority
    && b.alias == a.alias && b.terminates == a.terminates && b.size == a.size
  }

  lemma ChangeRanked(g: Graph, rank: Ranks, id: RegionId, info: RegionInfo)
    requires Ranked(g, rank) && id in g && KeepsShape(g[id], info)
    ensures Ranked(g[id := info], rank)
  {
    var h := g[id := info];
    forall x | x in h
      ensures x in rank && BelowAll(h, rank, h[x].subregions, rank[x])
              && (h[x].alias.Some? ==> BelowAll(h, rank, [h[x].alias.value], rank[x]))
    {
      assert BelowAll(g, rank, g[x].subregions, rank[x]);
      assert g[x].alias.Some? ==> BelowAll(g, rank, [g[x].alias.value], rank[x]);
    }
  }

  lemma ChangeOk(g: Graph, rank: Ranks, id: RegionId, info: RegionInfo)
    requires GraphOk(g, rank) && id in g && KeepsShape(g[id], info)
    ensures GraphOk(g[id := info], rank)
  {
    hide Ranked;
    var h := g[id := info];
    ChangeRanked(g, rank, id, info);
    forall p | p in h ensures ListsChildren(h, p) && IsListed(h, p) {
      assert ListsChildren(g, p) && IsListed(g, p);
      ChangeLists(g, id, info, p);
    }
  }

  lemma ChangeLists(g: Graph, id: RegionId, info: RegionInfo, p: RegionId)
    requires id in g && p in g && KeepsShape(g[id], info) && ListsChildren(g, p) && IsListed(g, p)
    ensures ListsChildren(g[id := info], p) && IsListed(g[id := info], p)
  {
  }

  lemma {:induction false} ActiveSame(g: Graph, h: Graph, ids: seq<RegionId>)
    requires AllIn(g, ids) && AllIn(h, ids)
    requires forall k :: 0 <= k < |ids| ==> h[ids[k]].enabled == g[ids[k]].enabled
    ensures Active(g, ids) == Active(h, ids)
    decreases |ids|
  {
    if ids != [] { ActiveSame(g, h, ids[1..]); }
  }

  /** A region that stays disabled can change without being seen. */
  lemma DisabledChange(g: Graph, id: RegionId, info: RegionInfo)
    requires Closed(g) && id in g && !g[id].enabled && !info.enabled
    requires info.addr == g[id].addr && info.subregions == g[id].subregions
    ensures Closed(g[id := info]) && SameEffect(g, g[id := info])
  {
    var h := g[id := info];
    forall x | x in h ensures AllIn(h, h[x].subregions) { assert AllIn(g, g[x].subregions); }
    forall x | x in g ensures SameRegion(g, h, x) {
      if x != id { ActiveSame(g, h, g[x].subregions); }
    }
  }

  /** A detached region can be placed anywhere without being seen. */
  lemma DetachedMove(g: Graph, id: RegionId, addr: nat)
    requires Linked(g) && Closed(g) && id in g && g[id].parent.None?
    ensures var h := g[id := g[id].(addr := addr)]; Closed(h) && SameEffect(g, h)
  {
    var h := g[id := g[id].(addr := addr)];
    forall x | x in h ensures AllIn(h, h[x].subregions) { assert AllIn(g, g[x].subregions); }
    forall x | x in g ensures SameRegion(g, h, x) {
      ActiveSame(g, h, g[x].subregions);
      assert ListsChildren(g, x);
    }
  }

  function Attached(g: Graph, p: RegionId, pos: nat, s: RegionId, offset: nat, overlap: bool, priority: nat): Graph
    requires p in g && s in g && p != s && pos <= |g[p].subregions|
  {
    var subs := g[p].subregions;
    g[s := g[s].(parent := Some(p), addr := offset, mayOverlap := overlap, priority := priority)]
     [p := g[p].(subregions := subs[..pos] + [s] + subs[pos..])]
  }

  /** Where add_subregion inserts: before the first sibling of no higher priority. */
  ghost predicate InsertsAt(g: Graph, p: RegionId, pos: nat, priority: nat)
    requires p in g && AllIn(g, g[p].subregions)
  {
    var subs := g[p].subregions;
    && pos <= |subs|
    && (forall k :: 0 <= k < pos ==> priority < g[subs[k]].priority)
    && (pos < |subs| ==> priority >= g[subs[pos]].priority)
  }

  lemma DistinctInsert(ids: seq<RegionId>, pos: nat, s: RegionId)
    requires Distinct(ids) && pos <= |ids| && s !in ids
    ensures Distinct(ids[..pos] + [s] + ids[pos..])
  {
    var more := ids[..pos] + [s] + ids[pos..];
    forall k, l | 0 <= k < l < |more| ensures more[k] != more[l] {
      assert k != pos ==> more[k] == ids[if k < pos then k else k - 1];
      assert l != pos ==> more[l] == ids[if l < pos then l else l - 1];
    }
  }

  lemma FallingInsert(g: Graph, h: Graph, p: RegionId, pos: nat, s: RegionId, priority: nat)
    requires p in g && AllIn(g, g[p].subregions) && InsertsAt(g, p, pos, priority) && Falling(g, g[p].subregions)
    requires s in h && h[s].priority == priority && AllIn(h, g[p].subregions)
    requires forall k :: 0 <= k < |g[p].subregions| ==> h[g[p].subregions[k]].priority == g[g[p].subregions[k]].priority
    ensures var ids := g[p].subregions;
            AllIn(h, ids[..pos] + [s] + ids[pos..]) && Falling(h, ids[..pos] + [s] + ids[pos..])
  {
    var ids := g[p].subregions;
    var more := ids[..pos] + [s] + ids[pos..];
    forall k | 0 <= k < |more| ensures more[k] in h {
      assert k != pos ==> more[k] == ids[if k < pos then k else k - 1];
    }
    forall k, l | 0 <= k < l < |more| ensures h[more[k]].priority >= h[more[l]].priority {
      var k', l' := if k < pos then k else k - 1, if l < pos then l else l - 1;
      assert k != pos ==> more[k] == ids[k'];
      assert l != pos ==> more[l] == ids[l'];
      if k == pos && l' != pos { assert g[ids[pos]].priority >= g[ids[l']].priority; }
    }
  }

  /** A detached region is in nobody's list. */
  lemma DetachedUnlisted(g: Graph, s: RegionId, q: RegionId)
    requires Linked(g) && s in g && g[s].parent.None? && q in g
    ensures s !in g[q].subregions
  {
    assert ListsChildren(g, q);
  }

  lemma AttachedSorted(g: Graph, p: RegionId, pos: nat, s: RegionId, offset: nat, overlap: bool, priority: nat)
    requires Linked(g) && Closed(g) && p in g && s in g && p != s && g[s].parent.None?
    requires InsertsAt(g, p, pos, priority)
    ensures ListsChildren(Attached(g, p, pos, s, offset, overlap, priority), p)
  {
    var h := Attached(g, p, pos, s, offset, overlap, priority);
    var subs, subs' := g[p].subregions, h[p].subregions;
    assert ListsChildren(g, p);
    DetachedUnlisted(g, s, p);
    hide Linked, Closed, InsertsAt;
    DistinctInsert(subs, pos, s);
    FallingInsert(g, h, p, pos, s, priority);
    forall k | 0 <= k < |subs'| ensures h[subs'[k]].parent == Some(p) {
      assert k != pos ==> subs'[k] == subs[if k < pos then k else k - 1];
    }
  }

  lemma AttachedOther(g: Graph, p: RegionId, pos: nat, s: RegionId, offset: nat, overlap: bool, priority: nat,
                      q: RegionId)
    requires Linked(g) && p in g && s in g && p != s && g[s].parent.None? && pos <= |g[p].subregions| && q in g
             && q != p
    ensures ListsChildren(Attached(g, p, pos, s, offset, overlap, priority), q)
  {
    assert ListsChildren(g, q);
    DetachedUnlisted(g, s, q);
    hide Linked;
    var h := Attached(g, p, pos, s, offset, overlap, priority);
    assert forall k :: 0 <= k < |g[q].subregions| ==> g[q].subregions[k] != s;
  }

  lemma InsertedKeeps(ids: seq<RegionId>, pos: nat, s: RegionId)
    requires pos <= |ids|
    ensures s in ids[..pos] + [s] + ids[pos..]
    ensures forall t :: t in ids ==> t in ids[..pos] + [s] + ids[pos..]
  {
    var more := ids[..pos] + [s] + ids[pos..];
    assert more[pos] == s;
    forall t | t in ids ensures t in more {
      var k :| 0 <= k < |ids| && ids[k] == t;
      assert more[if k < pos then k else k + 1] == t;
    }
  }

  lemma AttachedListed(g: Graph, p: RegionId, pos: nat, s: RegionId, offset: nat, overlap: bool, priority: nat,
                       t: RegionId)
    requires Linked(g) && p in g && s in g && p != s && g[s].parent.None? && pos <= |g[p].subregions| && t in g
    ensures IsListed(Attached(g, p, pos, s, offset, overlap, priority), t)
  {
    assert IsListed(g, t);
    hide Linked;
    InsertedKeeps(g[p].subregions, pos, s);
  }

  lemma AttachedLists(g: Graph, p: RegionId, pos: nat, s: RegionId, offset: nat, overlap: bool, priority: nat)
    requires Linked(g) && Closed(g) && p in g && s in g && p != s && g[s].parent.None?
    requires InsertsAt(g, p, pos, priority)
    ensures Linked(Attached(g, p, pos, s, offset, overlap, priority))
  {
    var h := Attached(g, p, pos, s, offset, overlap, priority);
    forall q | q in h ensures ListsChildren(h, q) && IsListed(h, q) {
      hide *;
      AttachedListed(g, p, pos, s, offset, overlap, priority, q);
      if q == p {
        AttachedSorted(g, p, pos, s, offset, overlap, priority);
      } else {
        AttachedOther(g, p, pos, s, offset, overlap, priority, q);
      }
    }
  }

  lemma {:induction false} ActiveInsert(g: Graph, h: Graph, ids: seq<RegionId>, pos: nat, s: RegionId)
    requires AllIn(g, ids) && AllIn(h, ids) && pos <= |ids| && s in h && !h[s].enabled
    requires forall k :: 0 <= k < |ids| ==> h[ids[k]].enabled == g[ids[k]].enabled
    ensures AllIn(h, ids[..pos] + [s] + ids[pos..])
    ensures Active(h, ids[..pos] + [s] + ids[pos..]) == Active(g, ids)
    decreases pos
  {
    var more := ids[..pos] + [s] + ids[pos..];
    if pos == 0 {
      assert more[1..] == ids;
      ActiveSame(g, h, ids);
    } else {
      ActiveInsert(g, h, ids[1..], pos - 1, s);
      assert more[1..] == ids[1..][..pos - 1] + [s] + ids[1..][pos - 1..];
    }
  }

  lemma AttachedHiddenAt(g: Graph, p: RegionId, pos: nat, s: RegionId, offset: nat, overlap: bool, priority: nat,
                         x: RegionId)
    requires Linked(g) && p in g && s in g && p != s && g[s].parent.None? && pos <= |g[p].subregions| && x in g
    requires !(g[p].enabled && g[s].enabled)
    ensures var h := Attached(g, p, pos, s, offset, overlap, priority);
            AllIn(g, g[x].subregions) && AllIn(h, h[x].subregions) && SameRegion(g, h, x)
  {
    hide Linked, IsListed, Active;
    LinkedLists(g, x);
    DetachedUnlisted(g, s, x);
    var h := Attached(g, p, pos, s, offset, overlap, priority);
    if x != p {
      ActiveSame(g, h, g[x].subregions);
    } else {
      InsertedIn(h, g[p].subregions, pos, s);
      if g[p].enabled { ActiveInsert(g, h, g[p].subregions, pos, s); }
    }
  }

  lemma LinkedLists(g: Graph, x: RegionId)
    requires Linked(g) && x in g
    ensures ListsChildren(g, x)
  {
  }

  lemma InsertedIn(g: Graph, ids: seq<RegionId>, pos: nat, s: RegionId)
    requires AllIn(g, ids) && s in g && pos <= |ids|
    ensures AllIn(g, ids[..pos] + [s] + ids[pos..])
  {
  }

  /** Attaching under a disabled parent, or attaching a disabled region, cannot be seen. */
  lemma AttachedHidden(g: Graph, p: RegionId, pos: nat, s: RegionId, offset: nat, overlap: bool, priority: nat)
    requires Linked(g) && Closed(g) && p in g && s in g && p != s && g[s].parent.None? && pos <= |g[p].subregions|
    requires !(g[p].enabled && g[s].enabled)
    ensures var h := Attached(g, p, pos, s, offset, overlap, priority); Closed(h) && SameEffect(g, h)
  {
    var h := Attached(g, p, pos, s, offset, overlap, priority);
    assert g.Keys == h.Keys;
    forall x | x in g ensures AllIn(h, h[x].subregions) && SameRegion(g, h, x) {
      hide *;
      AttachedHiddenAt(g, p, pos, s, offset, overlap, priority, x);
    }
  }

  function Removed(ids: seq<RegionId>, pos: nat): seq<RegionId>
    requires pos < |ids|
  {
    ids[..pos] + ids[pos + 1..]
  }

  function Detached(g: Graph, p: RegionId, pos: nat, s: RegionId): Graph
    requires p in g && s in g && p != s && pos < |g[p].subregions|
  {
    g[s := g[s].(parent := None)][p := g[p].(subregions := Removed(g[p].subregions, pos))]
  }

  lemma RemovedAt(ids: seq<RegionId>, pos: nat)
    requires pos < |ids|
    ensures forall k :: 0 <= k < |Removed(ids, pos)| ==> Removed(ids, pos)[k] == ids[if k < pos then k else k + 1]
    ensures Distinct(ids) ==> Distinct(Removed(ids, pos)) && ids[pos] !in Removed(ids, pos)
    ensures forall t :: t in ids && t != ids[pos] ==> t in Removed(ids, pos)
  {
    var less := Removed(ids, pos);
    forall t | t in ids && t != ids[pos] ensures t in less {
      var k :| 0 <= k < |ids| && ids[k] == t;
      assert less[if k < pos then k else k - 1] == t;
    }
  }

  lemma DetachedOwn(g: Graph, p: RegionId, pos: nat, s: RegionId)
    requires p in g && s in g && p != s && ListsChildren(g, p)
    requires pos < |g[p].subregions| && g[p].subregions[pos] == s
    ensures ListsChildren(Detached(g, p, pos, s), p)
  {
    var h := Detached(g, p, pos, s);
    var ids, less := g[p].subregions, Removed(g[p].subregions, pos);
    RemovedAt(ids, pos);
    hide Removed;
    forall k | 0 <= k < |less|
      ensures less[k] in h && h[less[k]].parent == Some(p) && h[less[k]].priority == g[less[k]].priority
    {
      assert less[k] != s && less[k] == ids[if k < pos then k else k + 1];
    }
    forall k, l | 0 <= k < l < |less| ensures h[less[k]].priority >= h[less[l]].priority {
      assert less[k] == ids[if k < pos then k else k + 1] && less[l] == ids[if l < pos then l else l + 1];
    }
  }

  lemma DetachedOther(g: Graph, p: RegionId, pos: nat, s: RegionId, q: RegionId)
    requires p in g && s in g && p != s && q in g && q != p && ListsChildren(g, q)
    requires pos < |g[p].subregions| && g[s].parent == Some(p)
    ensures ListsChildren(Detached(g, p, pos, s), q)
  {
    assert forall k :: 0 <= k < |g[q].subregions| ==> g[q].subregions[k] != s;
  }

  lemma DetachedAt(g: Graph, p: RegionId, pos: nat, s: RegionId, q: RegionId)
    requires Linked(g) && p in g && s in g && p != s && q in g
    requires pos < |g[p].subregions| && g[p].subregions[pos] == s
    ensures ListsChildren(Detached(g, p, pos, s), q)
  {
    assert ListsChildren(g, q) && ListsChildren(g, p);
    assert HaveParent(g, g[p].subregions, p);
    if q == p { DetachedOwn(g, p, pos, s); } else { DetachedOther(g, p, pos, s, q); }
  }

  lemma DetachedListed(g: Graph, p: RegionId, pos: nat, s: RegionId, t: RegionId)
    requires Linked(g) && p in g && s in g && p != s && t in g
    requires pos < |g[p].subregions| && g[p].subregions[pos] == s
    ensures IsListed(Detached(g, p, pos, s), t)
  {
    assert IsListed(g, t);
    hide Linked;
    RemovedAt(g[p].subregions, pos);
  }

  lemma DetachedLists(g: Graph, p: RegionId, pos: nat, s: RegionId)
    requires Linked(g) && p in g && s in g && p != s && pos < |g[p].subregions| && g[p].subregions[pos] == s
    ensures Linked(Detached(g, p, pos, s))
  {
    var h := Detached(g, p, pos, s);
    forall q | q in h ensures ListsChildren(h, q) && IsListed(h, q) {
      hide *;
      DetachedAt(g, p, pos, s, q);
      DetachedListed(g, p, pos, s, q);
    }
  }

  lemma RemovedBack(ids: seq<RegionId>, pos: nat)
    requires pos < |ids|
    ensures Removed(ids, pos)[..pos] + [ids[pos]] + Removed(ids, pos)[pos..] == ids
  {
  }

  lemma RemovedIn(g: Graph, ids: seq<RegionId>, pos: nat)
    requires AllIn(g, ids) && pos < |ids|
    ensures AllIn(g, Removed(ids, pos))
  {
    RemovedAt(ids, pos);
    hide Removed;
  }

  lemma DetachedHiddenOwn(g: Graph, p: RegionId, pos: nat, s: RegionId)
    requires p in g && s in g && p != s && AllIn(g, g[p].subregions)
    requires pos < |g[p].subregions| && g[p].subregions[pos] == s
    requires !(g[p].enabled && g[s].enabled)
    ensures var h := Detached(g, p, pos, s);
            AllIn(h, h[p].subregions) && SameRegion(g, h, p)
  {
    var h := Detached(g, p, pos, s);
    var ids, less := g[p].subregions, Removed(g[p].subregions, pos);
    RemovedIn(g, ids, pos);
    RemovedBack(ids, pos);
    hide Removed;
    assert AllIn(h, less);
    if g[p].enabled { ActiveInsert(h, g, less, pos, s); }
  }

  lemma DetachedHiddenAt(g: Graph, p: RegionId, pos: nat, s: RegionId, x: RegionId)
    requires Linked(g) && p in g && s in g && p != s && x in g
    requires pos < |g[p].subregions| && g[p].subregions[pos] == s
    requires !(g[p].enabled && g[s].enabled)
    ensures var h := Detached(g, p, pos, s);
            AllIn(g, g[x].subregions) && AllIn(h, h[x].subregions) && SameRegion(g, h, x)
  {
    assert ListsChildren(g, x);
    hide Linked, ListsChildren, IsListed;
    if x != p {
      ActiveSame(g, Detached(g, p, pos, s), g[x].subregions);
    } else {
      DetachedHiddenOwn(g, p, pos, s);
    }
  }

  /** Detaching from a disabled parent, or detaching a disabled region, cannot be seen. */
  lemma DetachedHidden(g: Graph, p: RegionId, pos: nat, s: RegionId)
    requires Linked(g) && Closed(g) && p in g && s in g && p != s
    requires pos < |g[p].subregions| && g[p].subregions[pos] == s
    requires !(g[p].enabled && g[s].enabled)
    ensures var h := Detached(g, p, pos, s); Closed(h) && SameEffect(g, h)
  {
    var h := Detached(g, p, pos, s);
    assert g.Keys == h.Keys;
    forall x | x in g ensures AllIn(h, h[x].subregions) && SameRegion(g, h, x) {
      hide *;
      DetachedHiddenAt(g, p, pos, s, x);
    }
  }

  lemma DetachedRanked(g: Graph, rank: Ranks, p: RegionId, pos: nat, s: RegionId)
    requires Ranked(g, rank) && p in g && s in g && p != s && pos < |g[p].subregions|
    ensures Ranked(Detached(g, p, pos, s), rank)
  {
    var h := Detached(g, p, pos, s);
    RemovedAt(g[p].subregions, pos);
    forall x | x in h
      ensures x in rank && BelowAll(h, rank, h[x].subregions, rank[x])
              && (h[x].alias.Some? ==> BelowAll(h, rank, [h[x].alias.value], rank[x]))
    {
      hide Removed;
      assert BelowAll(g, rank, g[x].subregions, rank[x]);
      assert g[x].alias.Some? ==> BelowAll(g, rank, [g[x].alias.value], rank[x]);
    }
  }

  lemma AttachedRanked(g: Graph, rank: Ranks, p: RegionId, pos: nat, s: RegionId, offset: nat, overlap: bool,
                       priority: nat)
    requires Ranked(g, rank) && p in g && s in g && p != s && pos <= |g[p].subregions| && rank[s] < rank[p]
    ensures Ranked(Attached(g, p, pos, s, offset, overlap, priority), rank)
  {
    var h := Attached(g, p, pos, s, offset, overlap, priority);
    forall x | x in h
      ensures x in rank && BelowAll(h, rank, h[x].subregions, rank[x])
              && (h[x].alias.Some? ==> BelowAll(h, rank, [h[x].alias.value], rank[x]))
    {
      assert BelowAll(g, rank, g[x].subregions, rank[x]);
      assert g[x].alias.Some? ==> BelowAll(g, rank, [g[x].alias.value], rank[x]);
    }
  }

  /** Attaching keeps the graph well formed. */
  lemma AttachedOk(g: Graph, rank: Ranks, p: RegionId, pos: nat, s: RegionId, offset: nat, overlap: bool, priority: nat)
    requires GraphOk(g, rank) && p in g && s in g && p != s && rank[s] < rank[p] && g[s].parent.None?
    requires AllIn(g, g[p].subregions) && InsertsAt(g, p, pos, priority)
    ensures GraphOk(Attached(g, p, pos, s, offset, overlap, priority), rank)
  {
    RankedClosed(g, rank);
    AttachedRanked(g, rank, p, pos, s, offset, overlap, priority);
    AttachedLists(g, p, pos, s, offset, overlap, priority);
    hide Ranked, Linked, Closed;
  }

  lemma DetachedOk(g: Graph, rank: Ranks, p: RegionId, pos: nat, s: RegionId)
    requires GraphOk(g, rank) && p in g && s in g && p != s
    requires pos < |g[p].subregions| && g[p].subregions[pos] == s
    ensures GraphOk(Detached(g, p, pos, s), rank)
  {
    DetachedRanked(g, rank, p, pos, s);
    DetachedLists(g, p, pos, s);
    hide Ranked, Linked;
  }

  /** A region as memory_region_init and its variants leave it. */
  function FreshRegion(size: nat, terminates: bool, alias: Option<RegionId>, aliasOffset: nat): RegionInfo
  {
    RegionInfo(0, size, true, terminates, false, true, 0, 0, false, None, alias, aliasOffset, [])
  }

  function RankAbove(rank: Ranks, alias: Option<RegionId>): nat
  {
    if alias.Some? && alias.value in rank then rank[alias.value] + 1 else 0
  }

  lemma FreshRanked(g: Graph, rank: Ranks, id: RegionId, info: RegionInfo)
    requires Ranked(g, rank) && id !in g && info.subregions == [] && (info.alias.Some? ==> info.alias.value in g)
    ensures Ranked(g[id := info], rank[id := RankAbove(rank, info.alias)])
  {
    var h, r := g[id := info], rank[id := RankAbove(rank, info.alias)];
    forall x | x in h
      ensures x in r && BelowAll(h, r, h[x].subregions, r[x])
              && (h[x].alias.Some? ==> BelowAll(h, r, [h[x].alias.value], r[x]))
    {
      if x != id {
        assert BelowAll(g, rank, g[x].subregions, rank[x]);
        assert g[x].alias.Some? ==> BelowAll(g, rank, [g[x].alias.value], rank[x]) && [g[x].alias.value][0] in g;
      }
    }
  }

  lemma FreshLists(g: Graph, id: RegionId, info: RegionInfo)
    requires Linked(g) && id !in g && info.subregions == [] && info.parent.None?
    ensures Linked(g[id := info])
  {
    var h := g[id := info];
    forall p | p in h ensures ListsChildren(h, p) && IsListed(h, p) {
      if p != id {
        assert ListsChildren(g, p) && IsListed(g, p);
        assert id !in g[p].subregions;
      }
    }
  }

  /** A new region cannot be seen until it is attached or aliased. */
  lemma FreshHidden(g: Graph, id: RegionId, info: RegionInfo)
    requires Closed(g) && id !in g && info.subregions == []
    ensures Closed(g[id := info]) && SameEffect(g, g[id := info])
  {
    var h := g[id := info];
    forall x | x in h ensures AllIn(h, h[x].subregions) {
      if x != id { assert AllIn(g, g[x].subregions); }
    }
    forall x | x in g ensures SameRegion(g, h, x) {
      assert AllIn(g, g[x].subregions);
      ActiveSame(g, h, g[x].subregions);
    }
  }

  lemma FreshOk(g: Graph, rank: Ranks, id: RegionId, info: RegionInfo)
    requires GraphOk(g, rank) && id !in g && info.subregions == [] && info.parent.None?
    requires (info.alias.Some? ==> info.alias.value in g)
    ensures GraphOk(g[id := info], rank[id := RankAbove(rank, info.alias)])
  {
    FreshRanked(g, rank, id, info);
    FreshLists(g, id, info);
    hide Ranked, Linked;
  }
}
