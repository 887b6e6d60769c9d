/** The KVM slot table as a listener of topology updates: kvm_region_add and kvm_region_del of kvm-all.c. */
module KvmListener {
  import opened Common
  import opened MemoryRegion
  import opened FlatView
  import opened Topology
  import opened KvmSlots

  /** What kvm_set_phys_mem asks about a region; `ptr` is its host memory. */
  datatype Backing = Backing(isRam: bool, writeable: bool, ptr: int)

  /** The machine as the listener sees it: the regions, and whether the kernel takes read-only slots. */
  datatype Machine = Machine(backing: RegionId -> Backing, romdMode: RegionId -> bool, readonlyMem: bool)

  // ---------------------------------------------------------------- what a view asks for

  /** The range is to be backed by a slot: RAM, or a ROM device in ROM mode. */
  predicate Wanted(m: Machine, fr: FlatRange)
  {
    var b := m.backing(fr.mr);
    b.isRam || (!b.writeable && m.readonlyMem && fr.romdMode)
  }

  /** The address is in the part of the range that trimming keeps. */
  predicate InTrim(fr: FlatRange, a: int)
    requires 0 <= fr.addr.start && 0 <= fr.addr.size
  {
    var t := Trim(fr.addr.start, fr.addr.size);
    t.Some? && t.value.lo <= a < t.value.lo + t.value.len
  }

  function HostOf(m: Machine, fr: FlatRange, a: int): int
  {
    m.backing(fr.mr).ptr + fr.offset + (a - fr.addr.start)
  }

  /** A slot is to give the address the range's host address. */
  predicate Asks(m: Machine, fr: FlatRange, a: int)
    requires 0 <= fr.addr.start && 0 <= fr.addr.size
  {
    Wanted(m, fr) && InTrim(fr, a)
  }

  lemma TrimInside(fr: FlatRange, a: int)
    requires 0 <= fr.addr.start && 0 <= fr.addr.size && InTrim(fr, a)
    ensures fr.addr.Contains(a)
  {
    TrimKeeps(fr.addr.start, fr.addr.size);
    RoundUpIs(fr.addr.start);
    hide Trim, RoundUp, RoundDown;
  }

  /** The table shows the ranges of `view` that are in `keep`, trimmed, and nothing else. */
  ghost predicate Shows(s: seq<Slot>, m: Machine, view: seq<FlatRange>, keep: set<nat>)
    requires AllInSpan(view)
  {
    && (forall i, a :: i in keep && i < |view| && Asks(m, view[i], a) ==> Host(s, a) == Some(HostOf(m, view[i], a)))
    && (forall a :: (forall i :: i in keep && i < |view| ==> !Asks(m, view[i], a)) ==> Host(s, a) == None)
  }

  predicate IsIndex(view: seq<FlatRange>, i: nat) { i < |view| }

  ghost function All(view: seq<FlatRange>): set<nat>
  {
    set i: nat | i < |view| && IsIndex(view, i)
  }

  /** The ranges of `view` that `other` has too. */
  ghost function Shared(view: seq<FlatRange>, other: seq<FlatRange>): set<nat>
  {
    set i: nat | i < |view| && Matched(view[i], other)
  }

  /** Every address has the host address its range asks for, or none. */
  lemma ShowsAll(s: seq<Slot>, m: Machine, view: seq<FlatRange>, i: nat, a: int)
    requires WellFormed(view) && AllInSpan(view) && Shows(s, m, view, All(view)) && i < |view|
             && view[i].addr.Contains(a)
    ensures Host(s, a) == if Asks(m, view[i], a) then Some(HostOf(m, view[i], a)) else None
  {
    hide InTrim, HostOf;
    assert IsIndex(view, i);
    if !Asks(m, view[i], a) {
      forall k | k in All(view) ensures !Asks(m, view[k], a) {
        if InTrim(view[k], a) { TrimInside(view[k], a); }
      }
    }
  }

  /**
    So every whole page of a wanted range has its host address, if the range's start and size agree modulo the page
    size; and no address of the range has any if they do not.
   */
  lemma WholePages(s: seq<Slot>, m: Machine, view: seq<FlatRange>, i: nat, a: int)
    requires WellFormed(view) && AllInSpan(view) && Shows(s, m, view, All(view)) && i < |view|
             && view[i].addr.Contains(a)
    ensures var fr := view[i];
            var fits := fr.addr.start % TARGET_PAGE_SIZE == fr.addr.size % TARGET_PAGE_SIZE;
            Host(s, a) == if Wanted(m, fr) && fits && RoundUp(fr.addr.start) <= a < RoundDown(fr.addr.End())
                          then Some(HostOf(m, fr, a)) else None
  {
    ShowsAll(s, m, view, i, a);
    TrimKeeps(view[i].addr.start, view[i].addr.size);
    hide Trim, RoundUp, RoundDown, HostOf, Shows;
  }

  /**
    So the guest finds behind an address the byte of the region that the tree means there: at the region's host memory
    plus the offset the tree gives, in every whole page of a range to be backed that trimming keeps, and nothing
    elsewhere.
   */
  lemma GuestFinds(s: seq<Slot>, m: Machine, view: seq<FlatRange>, root: Region, i: nat, a: int)
    requires IsTopology(view, root) && AllInSpan(view) && Shows(s, m, view, All(view))
    requires i < |view| && view[i].addr.Contains(a)
    ensures ResolveRoot(root, a).Some?
    ensures var h := ResolveRoot(root, a).value;
            Host(s, a) == if Asks(m, view[i], a) then Some(m.backing(h.mr).ptr + h.offset) else None
  {
    assert At(view, a) == ResolveRoot(root, a);
    AtIndex(view, i, a);
    ShowsAll(s, m, view, i, a);
    hide ResolveRoot, At, InTrim, Shows, WellFormed, Wanted, MergedUpTo;
  }

  /** Where the tree means nothing the guest finds nothing. */
  lemma GuestFindsNothing(s: seq<Slot>, m: Machine, view: seq<FlatRange>, root: Region, a: int)
    requires IsTopology(view, root) && AllInSpan(view) && Shows(s, m, view, All(view)) && ResolveRoot(root, a).None?
    ensures Host(s, a) == None
  {
    assert At(view, a) == ResolveRoot(root, a);
    AtNone(view, a);
    hide ResolveRoot, At, Shows, WellFormed, MergedUpTo;
    NothingThere(s, m, view, a);
  }

  lemma NothingThere(s: seq<Slot>, m: Machine, view: seq<FlatRange>, a: int)
    requires AllInSpan(view) && Shows(s, m, view, All(view))
    requires forall i :: 0 <= i < |view| ==> !view[i].addr.Contains(a)
    ensures Host(s, a) == None
  {
    hide InTrim;
    forall i | i in All(view) && i < |view| ensures !Asks(m, view[i], a) {
      if InTrim(view[i], a) { TrimInside(view[i], a); }
    }
  }

  /** What one call of kvm_set_phys_mem does to the table. */
  ghost predicate Changed(s: seq<Slot>, t: seq<Slot>, m: Machine, fr: FlatRange, add: bool)
    requires 0 <= fr.addr.start && 0 <= fr.addr.size
  {
    var b := m.backing(fr.mr);
    var action := Action(b.isRam, b.writeable, m.readonlyMem, m.romdMode(fr.mr), add);
    forall a :: Host(t, a) ==
                if !(action.Some? && InTrim(fr, a)) then Host(s, a)
                else if action.value then Some(HostOf(m, fr, a)) else None
  }

  /** Ranges of a view share no address, trimmed or not. */
  lemma TrimsApart(view: seq<FlatRange>, i: nat, j: nat, a: int)
    requires WellFormed(view) && AllInSpan(view) && i < |view| && j < |view| && InTrim(view[i], a) && InTrim(view[j], a)
    ensures i == j
  {
    hide InTrim;
    TrimInside(view[i], a);
    TrimInside(view[j], a);
  }

  /** region_del for range `j`. */
  lemma Dropped(s: seq<Slot>, t: seq<Slot>, m: Machine, view: seq<FlatRange>, keep: set<nat>, j: nat)
    requires WellFormed(view) && AllInSpan(view) && j < |view| && Shows(s, m, view, keep)
             && Changed(s, t, m, view[j], false)
    ensures Shows(t, m, view, keep - {j})
  {
    hide InTrim, HostOf, WellFormed;
    forall i, a | i in keep - {j} && i < |view| && Asks(m, view[i], a)
      ensures Host(t, a) == Some(HostOf(m, view[i], a))
    {
      if InTrim(view[j], a) { TrimsApart(view, i, j, a); }
    }
    forall a | forall i :: i in keep - {j} && i < |view| ==> !Asks(m, view[i], a) ensures Host(t, a) == None {
      if !Asks(m, view[j], a) {
        assert forall i :: i in keep && i < |view| ==> !Asks(m, view[i], a);
      }
    }
  }

  /** region_add for range `j`. */
  lemma Added(s: seq<Slot>, t: seq<Slot>, m: Machine, view: seq<FlatRange>, keep: set<nat>, j: nat)
    requires WellFormed(view) && AllInSpan(view) && j < |view| && Shows(s, m, view, keep)
             && Changed(s, t, m, view[j], true)
    requires j !in keep && view[j].romdMode == m.romdMode(view[j].mr)
    ensures Shows(t, m, view, keep + {j})
  {
    hide InTrim, HostOf, WellFormed;
    forall i, a | i in keep + {j} && i < |view| && Asks(m, view[i], a)
      ensures Host(t, a) == Some(HostOf(m, view[i], a))
    {
      if i != j && InTrim(view[j], a) { TrimsApart(view, i, j, a); }
    }
    forall a | forall i :: i in keep + {j} && i < |view| ==> !Asks(m, view[i], a) ensures Host(t, a) == None {
      assert !Asks(m, view[j], a);
      assert forall i :: i in keep && i < |view| ==> !Asks(m, view[i], a);
    }
  }

  // ---------------------------------------------------------------- the two passes

  /** The next event of the delete pass, and the range it is about; the ranges in between are kept. */
  lemma {:induction false} NextDeletion(before: seq<FlatRange>, after: seq<FlatRange>, j: nat, k: nat) returns (j': nat)
    requires j <= |before| && k < |Deletions(before, after)|
             && Deletions(before[..j], after) == Deletions(before, after)[..k]
    ensures j <= j' < |before| && !Matched(before[j'], after) && forall i :: j <= i < j' ==> Matched(before[i], after)
    ensures Deletions(before, after)[k] == RegionDel(SectionOf(before[j']))
    ensures Deletions(before[..j' + 1], after) == Deletions(before, after)[..k + 1]
    decreases |before| - j
  {
    hide Matched, SectionOf;
    assert before[..|before|] == before;
    DeletionsNext(before, after, j);
    if Matched(before[j], after) {
      j' := NextDeletion(before, after, j + 1, k);
    } else {
      j' := j;
      DeletionsPrefix(before, after, j + 1);
      NextOne(Deletions(before, after), k, RegionDel(SectionOf(before[j])));
    }
  }

  lemma DeletionsNext(before: seq<FlatRange>, after: seq<FlatRange>, j: nat)
    requires j < |before|
    ensures Deletions(before[..j + 1], after)
         == Deletions(before[..j], after) + if Matched(before[j], after) then [] else [RegionDel(SectionOf(before[j]))]
  {
    hide Matched, SectionOf;
    assert before[..j + 1][..j] == before[..j];
  }

  lemma NextOne(events: seq<Event>, k: nat, e: Event)
    requires k < |events| && events[..k] + [e] <= events
    ensures events[k] == e && events[..k] + [e] == events[..k + 1]
  {
    assert (events[..k] + [e])[k] == e;
  }

  lemma {:induction false} DeletionsPrefix(before: seq<FlatRange>, after: seq<FlatRange>, n: nat)
    requires n <= |before|
    ensures Deletions(before[..n], after) <= Deletions(before, after)
    decreases |before| - n
  {
    if n == |before| {
      assert before[..n] == before;
    } else {
      DeletionsPrefix(before, after, n + 1);
      assert before[..n + 1][..n] == before[..n];
    }
  }

  /** The old ranges that are still held once the first `j` have been looked at. */
  ghost function Held(before: seq<FlatRange>, after: seq<FlatRange>, j: nat): set<nat>
  {
    set i: nat | i < |before| && (j <= i || Matched(before[i], after))
  }

  lemma HeldNext(before: seq<FlatRange>, after: seq<FlatRange>, j: nat, j': nat)
    requires j <= j' < |before| && !Matched(before[j'], after) && forall i :: j <= i < j' ==> Matched(before[i], after)
    ensures Held(before, after, j' + 1) == Held(before, after, j) - {j'}
  {
  }

  /** The next range of the add pass starts where the events of the ranges before it end. */
  lemma NextAddition(before: seq<FlatRange>, after: seq<FlatRange>, j: nat)
    requires j <= |after| && |Additions(before, after[..j])| < |Additions(before, after)|
    ensures j < |after|
    ensures var events, k, n := Additions(before, after), |Additions(before, after[..j])|, |Addition(after[j], before)|;
            && k + n <= |events| && |Additions(before, after[..j + 1])| == k + n && 0 < n
            && events[k..k + n] == Addition(after[j], before)
  {
    hide Addition;
    assert after[..|after|] == after;
    AdditionsPrefix(before, after, j + 1);
    assert after[..j + 1][..j] == after[..j];
    AdditionSome(after[j], before);
  }

  lemma AdditionSome(fr: FlatRange, before: seq<FlatRange>)
    ensures |Addition(fr, before)| > 0
  {
  }

  lemma {:induction false} AdditionsPrefix(before: seq<FlatRange>, after: seq<FlatRange>, n: nat)
    requires n <= |after|
    ensures Additions(before, after[..n]) <= Additions(before, after)
    decreases |after| - n
  {
    if n == |after| {
      assert after[..n] == after;
    } else {
      AdditionsPrefix(before, after, n + 1);
      assert after[..n + 1][..n] == after[..n];
    }
  }

  /** The new ranges held once the first `j` have been looked at. */
  ghost function Gained(before: seq<FlatRange>, after: seq<FlatRange>, j: nat): set<nat>
  {
    set i: nat | i < |after| && (i < j || Matched(after[i], before))
  }

  lemma GainedNext(before: seq<FlatRange>, after: seq<FlatRange>, j: nat)
    requires j < |after|
    ensures Gained(before, after, j + 1) == Gained(before, after, j) + {j}
    ensures j in Gained(before, after, j) <==> Matched(after[j], before)
    ensures Matched(after[j], before) ==> Gained(before, after, j + 1) == Gained(before, after, j)
  {
  }

  lemma HeldEnds(before: seq<FlatRange>, after: seq<FlatRange>)
    ensures Held(before, after, 0) == All(before) && Held(before, after, |before|) == Shared(before, after)
    ensures Gained(before, after, 0) == Shared(after, before) && Gained(before, after, |after|) == All(after)
  {
    forall i: nat | i < |before| ensures i in All(before) { assert IsIndex(before, i); }
    forall i: nat | i < |after| ensures i in All(after) { assert IsIndex(after, i); }
  }

  /** What both views have is the same seen from either. */
  lemma SharedShows(s: seq<Slot>, m: Machine, before: seq<FlatRange>, after: seq<FlatRange>)
    requires AllInSpan(before) && AllInSpan(after) && Shows(s, m, before, Shared(before, after))
    ensures Shows(s, m, after, Shared(after, before))
  {
    hide Trim;
    forall l, a | l in Shared(after, before) && l < |after| && Asks(m, after[l], a)
      ensures Host(s, a) == Some(HostOf(m, after[l], a))
    {
      var i :| 0 <= i < |before| && Equal(after[l], before[i]);
      assert Equal(before[i], after[l]);
      assert i in Shared(before, after) && Asks(m, before[i], a);
    }
    forall a | forall l :: l in Shared(after, before) && l < |after| ==> !Asks(m, after[l], a)
      ensures Host(s, a) == None
    {
      forall i | i in Shared(before, after) ensures !Asks(m, before[i], a) {
        var l :| 0 <= l < |after| && Equal(before[i], after[l]);
        assert Equal(after[l], before[i]);
        assert l in Shared(after, before);
      }
    }
  }

  /** kvm_region_add or kvm_region_del. */
  method Tell(kvm: KvmState, m: Machine, section: MemorySection, add: bool, ghost fr: FlatRange) returns (ok: bool)
    requires kvm.Valid() && section == SectionOf(fr) && InSpan(fr.addr)
    modifies kvm.slots
    ensures !ok ==> old(Live(kvm.slots[..])) > SLOTS - 2
    ensures ok ==> kvm.Valid() && Live(kvm.slots[..]) <= old(Live(kvm.slots[..])) + 2
    ensures ok ==> Changed(old(kvm.slots[..]), kvm.slots[..], m, fr, add)
  {
    hide Trim, Host, Live, Action;
    var b := m.backing(section.mr);
    ok := kvm.SetPhysMem(section.addr.start, section.addr.size, b.ptr + section.offset, b.isRam, b.writeable,
                         m.readonlyMem, m.romdMode(section.mr), add);
  }

  /** The delete pass. */
  method TellDeletions(kvm: KvmState, m: Machine, events: seq<Event>, ghost before: seq<FlatRange>,
                       ghost after: seq<FlatRange>)
    returns (ok: bool)
    requires kvm.Valid() && WellFormed(before) && AllInSpan(before) && events == Deletions(before, after)
    requires Shows(kvm.slots[..], m, before, All(before))
    modifies kvm.slots
    ensures ok ==> kvm.Valid() && Shows(kvm.slots[..], m, before, Shared(before, after))
    ensures ok ==> Live(kvm.slots[..]) <= old(Live(kvm.slots[..])) + 2 * |events|
    ensures !ok ==> old(Live(kvm.slots[..])) + 2 * |events| > SLOTS
  {
    hide Shows, Live, Changed, WellFormed, Deletions, Held, Shared, All;
    ok := true;
    ghost var j := 0;
    HeldEnds(before, after);
    NoDeletions(before, after);
    for k := 0 to |events|
      invariant ok && kvm.Valid() && j <= |before| && Deletions(before[..j], after) == events[..k]
      invariant Shows(kvm.slots[..], m, before, Held(before, after, j))
      invariant Live(kvm.slots[..]) <= old(Live(kvm.slots[..])) + 2 * k
    {
      ghost var j' := NextDeletion(before, after, j, k);
      ghost var s := kvm.slots[..];
      ok := Tell(kvm, m, events[k].section, false, before[j']);
      if !ok {
        return;
      }
      Dropped(s, kvm.slots[..], m, before, Held(before, after, j), j');
      HeldNext(before, after, j, j');
      j := j' + 1;
    }
    RestHeld(before, after, j);
  }

  lemma NoDeletions(before: seq<FlatRange>, after: seq<FlatRange>)
    ensures Deletions(before[..0], after) == [] && Additions(before, after[..0]) == []
  {
  }

  /** When all deletions have been told, the rest is kept. */
  lemma {:induction false} RestHeld(before: seq<FlatRange>, after: seq<FlatRange>, j: nat)
    requires j <= |before| && Deletions(before[..j], after) == Deletions(before, after)
    ensures Held(before, after, j) == Held(before, after, |before|)
    decreases |before| - j
  {
    if j < |before| {
      assert before[..j + 1][..j] == before[..j];
      DeletionsPrefix(before, after, j + 1);
      RestHeld(before, after, j + 1);
    } else {
      assert before[..j] == before;
    }
  }

  lemma SliceKinds(events: seq<Event>, k: nat, add: seq<Event>)
    requires k + |add| <= |events| && events[k..k + |add|] == add && add != []
    ensures events[k] == add[0]
    ensures (forall i :: 0 <= i < |add| ==> !add[i].RegionAdd?) ==>
              forall i :: k <= i < k + |add| ==> !events[i].RegionAdd?
  {
    forall i | k <= i < k + |add| ensures events[i] == add[i - k] {
      assert events[k..k + |add|][i - k] == events[i];
    }
  }

  lemma AdditionKinds(fr: FlatRange, before: seq<FlatRange>)
    ensures var add := Addition(fr, before);
            if Matched(fr, before) then forall i :: 0 <= i < |add| ==> !add[i].RegionAdd?
            else add == [RegionAdd(SectionOf(fr))]
  {
  }

  /** When all additions have been told, every new range has been looked at. */
  lemma AllGained(before: seq<FlatRange>, after: seq<FlatRange>, j: nat)
    requires j <= |after| && |Additions(before, after[..j])| == |Additions(before, after)|
    ensures j == |after|
  {
    if j < |after| {
      assert after[..j + 1][..j] == after[..j];
      AdditionsPrefix(before, after, j + 1);
    }
  }

  /** How many ranges of `view` the other does not have: for these, and only these, a call is made. */
  function Unmatched(view: seq<FlatRange>, other: seq<FlatRange>): nat
  {
    if view == [] then 0
    else Unmatched(view[..|view| - 1], other) + if Matched(view[|view| - 1], other) then 0 else 1
  }

  lemma UnmatchedNone(view: seq<FlatRange>, other: seq<FlatRange>)
    ensures Unmatched(view[..0], other) == 0
  {
  }

  lemma UnmatchedNext(view: seq<FlatRange>, other: seq<FlatRange>, j: nat)
    requires j < |view|
    ensures Unmatched(view[..j + 1], other) == Unmatched(view[..j], other) + if Matched(view[j], other) then 0 else 1
    ensures Unmatched(view[..j + 1], other) <= Unmatched(view, other)
  {
    assert view[..j + 1][..j] == view[..j];
    UnmatchedPrefix(view, other, j + 1);
  }

  lemma {:induction false} UnmatchedPrefix(view: seq<FlatRange>, other: seq<FlatRange>, j: nat)
    requires j <= |view|
    ensures Unmatched(view[..j], other) <= Unmatched(view, other)
    decreases |view| - j
  {
    if j < |view| {
      UnmatchedPrefix(view, other, j + 1);
      assert view[..j + 1][..j] == view[..j];
    } else {
      assert view[..j] == view;
    }
  }

  /** One deletion for each range that goes. */
  lemma {:induction false} DeletionsCount(before: seq<FlatRange>, after: seq<FlatRange>)
    ensures |Deletions(before, after)| == Unmatched(before, after)
  {
    hide Matched;
    if before != [] { DeletionsCount(before[..|before| - 1], after); }
  }

  /** The add pass; ranges that are kept, and changes of logging, make no call. */
  method TellAdditions(kvm: KvmState, m: Machine, events: seq<Event>, ghost before: seq<FlatRange>,
                       ghost after: seq<FlatRange>)
    returns (ok: bool)
    requires kvm.Valid() && WellFormed(after) && AllInSpan(after) && events == Additions(before, after)
    requires forall i :: 0 <= i < |after| ==> after[i].romdMode == m.romdMode(after[i].mr)
    requires Shows(kvm.slots[..], m, after, Shared(after, before))
    modifies kvm.slots
    ensures ok ==> kvm.Valid() && Shows(kvm.slots[..], m, after, All(after))
    ensures ok ==> Live(kvm.slots[..]) <= old(Live(kvm.slots[..])) + 2 * Unmatched(after, before)
    ensures !ok ==> old(Live(kvm.slots[..])) + 2 * Unmatched(after, before) > SLOTS
  {
    hide Shows, Live, Changed, WellFormed, Additions, Addition, Gained, Shared, All, Unmatched;
    ok := true;
    ghost var j, end := 0, 0;
    HeldEnds(before, after);
    NoDeletions(before, after);
    UnmatchedNone(after, before);
    for k := 0 to |events|
      invariant ok && kvm.Valid() && j <= |after| && k <= end == |Additions(before, after[..j])| <= |events|
      invariant forall i :: k <= i < end ==> !events[i].RegionAdd?
      invariant Shows(kvm.slots[..], m, after, Gained(before, after, j))
      invariant Live(kvm.slots[..]) <= old(Live(kvm.slots[..])) + 2 * Unmatched(after[..j], before)
    {
      ghost var s := kvm.slots[..];
      if k == end {
        NextAddition(before, after, j);
        AdditionKinds(after[j], before);
        SliceKinds(events, k, Addition(after[j], before));
        GainedNext(before, after, j);
        UnmatchedNext(after, before, j);
        end := end + |Addition(after[j], before)|;
        j := j + 1;
      }
      if events[k].RegionAdd? {
        ok := Tell(kvm, m, events[k].section, true, after[j - 1]);
        if !ok {
          return;
        }
        Added(s, kvm.slots[..], m, after, Gained(before, after, j - 1), j - 1);
      }
    }
    AllGained(before, after, j);
    assert after[..j] == after;
  }

  /**
    A topology update as the slot table hears it. If the table showed the old view, trimmed, it then shows the new one,
    trimmed, and nothing else; and there is room if two slots are free for every range that only one of the views has.
   */
  method UpdateSlots(kvm: KvmState, m: Machine, before: seq<FlatRange>, after: seq<FlatRange>) returns (ok: bool)
    requires kvm.Valid() && WellFormed(before) && WellFormed(after) && AllInSpan(before) && AllInSpan(after)
    requires forall i :: 0 <= i < |after| ==> after[i].romdMode == m.romdMode(after[i].mr)
    requires Shows(kvm.slots[..], m, before, All(before))
    modifies kvm.slots
    ensures ok ==> kvm.Valid() && Shows(kvm.slots[..], m, after, All(after))
    ensures !ok ==> old(Live(kvm.slots[..])) + 2 * (Unmatched(before, after) + Unmatched(after, before)) > SLOTS
  {
    hide Shows, Live, WellFormed, Deletions, Additions, Shared, All, Unmatched;
    DeletionsCount(before, after);
    var dels := UpdatePass(before, after, false);
    ok := TellDeletions(kvm, m, dels, before, after);
    if !ok {
      return;
    }
    SharedShows(kvm.slots[..], m, before, after);
    var adds := UpdatePass(before, after, true);
    ok := TellAdditions(kvm, m, adds, before, after);
  }
}
