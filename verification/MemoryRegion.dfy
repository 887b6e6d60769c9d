/**
  The region tree of memory.c and its meaning.

  A `Region` is one memory region as the renderer sees it: a window of `size`
  bytes placed at `addr` in its container, which either forwards to another
  region (`alias`), or holds an ordered list of subregions and, when it
  `terminates`, answers for every byte its subregions leave uncovered.

  `Resolve` is the meaning a tree is supposed to have.  It works with offsets
  relative to each region and knows nothing about ranges, clipping or absolute
  base addresses, which is what the renderer in FlatView.dfy computes with.
 */
module MemoryRegion {
  import opened Common

  type RegionId = nat

  datatype Region = Region(
    id: RegionId,
    addr: nat,
    size: nat,
    enabled: bool,
    terminates: bool,
    readonly: bool,
    romdMode: bool,
    logMask: nat,
    alias: Option<Region>,
    aliasOffset: nat,
    subregions: seq<Region>)

  /**
    No terminating region spans all 2^64 bytes. The renderer steps over an existing range with a 64-bit count and
    aborts at one of the full span, which such a tree never has.
   */
  predicate Bounded(mr: Region)
    decreases mr
  {
    && (mr.terminates ==> mr.size < TWO_64)
    && (mr.alias.Some? ==> Bounded(mr.alias.value))
    && forall k :: 0 <= k < |mr.subregions| ==> Bounded(mr.subregions[k])
  }

  /** What an address means: a byte of a terminating region, with the attributes it is reached under. */
  datatype Hit = Hit(mr: RegionId, offset: int, readonly: bool, romdMode: bool, logMask: nat)

  /** The byte at `offset` of `mr`, entered through containers whose read-only flags accumulate to `readonly`. */
  function Resolve(mr: Region, offset: int, readonly: bool): Option<Hit>
    decreases mr
  {
    if !mr.enabled || !(0 <= offset < mr.size) then
      None
    else if mr.alias.Some? then
      Resolve(mr.alias.value, offset + mr.aliasOffset, readonly || mr.readonly)
    else
      var inner := ResolveFirst(mr.subregions, offset, readonly || mr.readonly);
      if inner.Some? then
        inner
      else if mr.terminates then
        Some(Hit(mr.id, offset, readonly || mr.readonly, mr.romdMode, mr.logMask))
      else
        None
  }

  /** The first subregion, in list order, that has an answer for `offset` of the container. */
  function ResolveFirst(subs: seq<Region>, offset: int, readonly: bool): Option<Hit>
    decreases subs
  {
    if subs == [] then
      None
    else
      var first := Resolve(subs[0], offset - subs[0].addr, readonly);
      if first.Some? then first else ResolveFirst(subs[1..], offset, readonly)
  }

  /** The meaning of an address space whose root is `root`. */
  function ResolveRoot(root: Region, a: int): Option<Hit>
  {
    if 0 <= a < TWO_64 then Resolve(root, a - root.addr, false) else None
  }

  lemma {:induction false} ResolveFirstAppend(subs: seq<Region>, sub: Region, offset: int, readonly: bool)
    ensures ResolveFirst(subs + [sub], offset, readonly) ==
            var r := ResolveFirst(subs, offset, readonly);
            if r.Some? then r else Resolve(sub, offset - sub.addr, readonly)
  {
    if subs == [] {
      assert ([sub])[1..] == [];
      assert subs + [sub] == [sub];
    } else {
      assert (subs + [sub])[1..] == subs[1..] + [sub];
      ResolveFirstAppend(subs[1..], sub, offset, readonly);
    }
  }
}
