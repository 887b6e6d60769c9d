/** The guest-physical block list and the mapping list that a dump starts from (memory_mapping.c). */
module MemoryMapping {
  import opened Common
  import opened MemoryRegion
  import opened FlatView

  // ---------------------------------------------------------------- guest-physical blocks

  /** A GuestPhysBlock: guest-physical [start, end), backed by host memory from `host` on. */
  datatype PhysBlock = PhysBlock(start: int, end: int, host: int) {
    predicate Has(a: int) { start <= a < end }

    function HostAt(a: int): int { host + (a - start) }

    /** Continuity in both guest-physical and host-virtual memory. */
    predicate Continues(s: int, h: int) { end == s && HostAt(end) == h }
  }

  /** In rising order, none empty, none overlapping. */
  predicate Ascending(blocks: seq<PhysBlock>)
  {
    && (forall i :: 0 <= i < |blocks| ==> blocks[i].start < blocks[i].end)
    && (forall i, j :: 0 <= i < j < |blocks| ==> blocks[i].end <= blocks[j].start)
  }

  /** No block could have been joined with the next. */
  predicate Joined(blocks: seq<PhysBlock>)
  {
    forall i, j :: 0 <= i && j == i + 1 < |blocks| ==> !blocks[i].Continues(blocks[j].start, blocks[j].host)
  }

  /** The host address behind a guest-physical one, by the block list. */
  function HostAt(blocks: seq<PhysBlock>, a: int): Option<int>
  {
    if blocks == [] then None
    else
      var last := blocks[|blocks| - 1];
      if last.Has(a) then Some(last.HostAt(a)) else HostAt(blocks[..|blocks| - 1], a)
  }

  lemma {:induction false} HostAtIndex(blocks: seq<PhysBlock>, i: nat, a: int)
    requires Ascending(blocks) && i < |blocks| && blocks[i].Has(a)
    ensures HostAt(blocks, a) == Some(blocks[i].HostAt(a))
    decreases |blocks|
  {
    if i < |blocks| - 1 {
      assert blocks[i].end <= blocks[|blocks| - 1].start;
      HostAtIndex(blocks[..|blocks| - 1], i, a);
    }
  }

  lemma {:induction false} HostAtSome(blocks: seq<PhysBlock>, a: int) returns (i: nat)
    requires HostAt(blocks, a).Some?
    ensures i < |blocks| && blocks[i].Has(a) && HostAt(blocks, a) == Some(blocks[i].HostAt(a))
    decreases |blocks|
  {
    if blocks[|blocks| - 1].Has(a) {
      i := |blocks| - 1;
    } else {
      i := HostAtSome(blocks[..|blocks| - 1], a);
    }
  }

  /** The host address behind a guest-physical one, by the flat view: RAM only. */
  function RamAt(view: seq<FlatRange>, ramPtr: RegionId -> Option<int>, a: int): Option<int>
  {
    match At(view, a)
    case None => None
    case Some(h) => if ramPtr(h.mr).Some? then Some(ramPtr(h.mr).value + h.offset) else None
  }

  lemma RamAtNext(view: seq<FlatRange>, ramPtr: RegionId -> Option<int>, i: nat, a: int)
    requires WellFormed(view) && i < |view|
    ensures var fr := view[i];
            RamAt(view[..i + 1], ramPtr, a) ==
            if !fr.addr.Contains(a) then RamAt(view[..i], ramPtr, a)
            else if ramPtr(fr.mr).Some? then Some(ramPtr(fr.mr).value + fr.HitAt(a).offset)
            else None
  {
    assert view[..i + 1] == view[..i] + [view[i]];
    AtConcat(view[..i], [view[i]], a);
    AtSingle(view[i], a);
    if view[i].addr.Contains(a) {
      AtNone(view[..i], a);
    }
  }

  /** Both lists say the same of every address, so far. */
  ghost predicate Represents(blocks: seq<PhysBlock>, view: seq<FlatRange>, ramPtr: RegionId -> Option<int>)
  {
    forall a :: HostAt(blocks, a) == RamAt(view, ramPtr, a)
  }

  predicate EndsBy(blocks: seq<PhysBlock>, end: int)
  {
    forall i :: 0 <= i < |blocks| ==> blocks[i].end <= end
  }

  lemma HostAtBeyond(blocks: seq<PhysBlock>, end: int, a: int)
    requires EndsBy(blocks, end) && end <= a
    ensures HostAt(blocks, a) == None
    decreases |blocks|
  {
    if blocks != [] { HostAtBeyond(blocks[..|blocks| - 1], end, a); }
  }

  class PhysBlockList {
    var blocks: seq<PhysBlock>
    var num: nat

    constructor ()
      ensures blocks == [] && num == 0
    {
      blocks, num := [], 0;
    }

    /**
      guest_phys_blocks_region_add, for a RAM range whose host memory is at `host`: join the last block, or start one.
     */
    method RegionAdd(start: int, size: nat, host: int)
      requires Ascending(blocks) && Joined(blocks) && EndsBy(blocks, start) && 0 < size && num == |blocks|
      modifies this
      ensures Ascending(blocks) && Joined(blocks) && EndsBy(blocks, start + size)
              && num == |blocks| <= |old(blocks)| + 1
      ensures forall a :: HostAt(blocks, a) ==
                if start <= a < start + size then Some(host + (a - start)) else old(HostAt(blocks, a))
    {
      hide HostAt, Ascending, Joined;
      var n := |blocks|;
      if n > 0 && blocks[n - 1].Continues(start, host) {
        JoinedSame(blocks, start + size);
        blocks := blocks[n - 1 := blocks[n - 1].(end := start + size)];
      } else {
        AddedSame(blocks, PhysBlock(start, start + size, host));
        blocks := blocks + [PhysBlock(start, start + size, host)];
        num := num + 1;
      }
    }

    /** guest_phys_blocks_append: the list says of every address what the flat view says of RAM. */
    method Append(view: seq<FlatRange>, ramPtr: RegionId -> Option<int>)
      requires WellFormed(view) && blocks == [] && num == 0
      modifies this
      ensures Ascending(blocks) && Joined(blocks) && num == |blocks| <= |view| && Represents(blocks, view, ramPtr)
    {
      assert view[..0] == [];
      for i := 0 to |view|
        invariant Ascending(blocks) && Joined(blocks) && num == |blocks| <= i && Represents(blocks, view[..i], ramPtr)
        invariant i > 0 ==> EndsBy(blocks, view[i - 1].addr.End())
        invariant i == 0 ==> blocks == []
      {
        AddRange(view, i, ramPtr);
      }
      assert view[..|view|] == view;
    }

    /** The listener's turn for one range: anything but RAM is passed over. */
    method AddRange(view: seq<FlatRange>, i: nat, ramPtr: RegionId -> Option<int>)
      requires WellFormed(view) && i < |view| && Ascending(blocks) && Joined(blocks) && num == |blocks|
      requires Represents(blocks, view[..i], ramPtr)
      requires i > 0 ==> EndsBy(blocks, view[i - 1].addr.End())
      requires i == 0 ==> blocks == []
      modifies this
      ensures Ascending(blocks) && Joined(blocks) && num == |blocks| <= |old(blocks)| + 1
              && EndsBy(blocks, view[i].addr.End())
      ensures Represents(blocks, view[..i + 1], ramPtr)
    {
      hide Ascending, Joined, HostAt, RamAt;
      var fr := view[i];
      assert EndsBy(blocks, fr.addr.start);
      ghost var before := blocks;
      if ramPtr(fr.mr).Some? {
        RegionAdd(fr.addr.start, fr.addr.size, ramPtr(fr.mr).value + fr.offset);
      }
      forall a ensures HostAt(blocks, a) == RamAt(view[..i + 1], ramPtr, a) {
        RamAtNext(view, ramPtr, i, a);
        assert HostAt(before, a) == RamAt(view[..i], ramPtr, a);
        if fr.addr.Contains(a) { HostAtBeyond(before, fr.addr.start, a); }
      }
    }
  }

  lemma AddedSame(blocks: seq<PhysBlock>, b: PhysBlock)
    requires Ascending(blocks) && Joined(blocks) && EndsBy(blocks, b.start) && b.start < b.end
    requires blocks != [] ==> !blocks[|blocks| - 1].Continues(b.start, b.host)
    ensures Ascending(blocks + [b]) && Joined(blocks + [b]) && EndsBy(blocks + [b], b.end)
    ensures forall a :: HostAt(blocks + [b], a) == if b.Has(a) then Some(b.HostAt(a)) else HostAt(blocks, a)
  {
    hide HostAt, PhysBlock.Continues;
    var after := blocks + [b];
    assert forall i :: 0 <= i < |blocks| ==> after[i] == blocks[i];
    assert after[|blocks|] == b;
    assert Ascending(after);
    forall i, j | 0 <= i && j == i + 1 < |after| ensures !after[i].Continues(after[j].start, after[j].host) {
      if j < |blocks| { assert !blocks[i].Continues(blocks[j].start, blocks[j].host); }
    }
    hide Ascending, Joined;
    forall a ensures HostAt(after, a) == if b.Has(a) then Some(b.HostAt(a)) else HostAt(blocks, a) {
      HostAtAdded(blocks, b, a);
    }
  }

  lemma HostAtAdded(blocks: seq<PhysBlock>, b: PhysBlock, a: int)
    ensures HostAt(blocks + [b], a) == if b.Has(a) then Some(b.HostAt(a)) else HostAt(blocks, a)
  {
    assert (blocks + [b])[..|blocks|] == blocks;
  }

  lemma JoinedSame(blocks: seq<PhysBlock>, end: int)
    requires Ascending(blocks) && Joined(blocks) && blocks != [] && EndsBy(blocks, blocks[|blocks| - 1].end)
    requires blocks[|blocks| - 1].end < end
    ensures var last := blocks[|blocks| - 1];
            var after := blocks[|blocks| - 1 := last.(end := end)];
            && Ascending(after) && Joined(after) && EndsBy(after, end)
            && forall a :: HostAt(after, a) == if last.end <= a < end then Some(last.HostAt(a)) else HostAt(blocks, a)
  {
    var n, last := |blocks| - 1, blocks[|blocks| - 1];
    var after := blocks[n := last.(end := end)];
    assert after[..n] == blocks[..n];
    forall a | last.end <= a < end ensures HostAt(after, a) == Some(last.HostAt(a)) {
      assert last.start <= a;
    }
  }

  /**
    Two block lists in order, with nothing left to join, that give every address the same host address are equal. So the
    list is determined by the memory it describes, however the view cuts it up.
   */
  lemma {:induction false} BlocksUnique(v: seq<PhysBlock>, w: seq<PhysBlock>)
    requires Ascending(v) && Joined(v) && Ascending(w) && Joined(w) && forall a :: HostAt(v, a) == HostAt(w, a)
    ensures v == w
    decreases |v|
  {
    if v == [] {
      if w != [] { HostAtIndex(w, 0, w[0].start); }
    } else if w == [] {
      HostAtIndex(v, 0, v[0].start);
    } else {
      var x, y := v[|v| - 1], w[|w| - 1];
      SameEnd(v, w);
      SameEnd(w, v);
      SameStart(v, w);
      SameStart(w, v);
      HostAtIndex(v, |v| - 1, x.start);
      HostAtIndex(w, |w| - 1, y.start);
      assert x == y;
      var front, other := v[..|v| - 1], w[..|w| - 1];
      forall a ensures HostAt(front, a) == HostAt(other, a) {
        if x.start <= a {
          HostAtBeyond(front, x.start, a);
          HostAtBeyond(other, x.start, a);
        } else {
          assert HostAt(v, a) == HostAt(w, a);
        }
      }
      BlocksUnique(front, other);
    }
  }

  /** The last block ends no later than that of a list with the same addresses. */
  lemma SameEnd(v: seq<PhysBlock>, w: seq<PhysBlock>)
    requires Ascending(v) && Ascending(w) && v != [] && w != [] && forall a :: HostAt(v, a) == HostAt(w, a)
    ensures v[|v| - 1].end <= w[|w| - 1].end
  {
    var a := v[|v| - 1].end - 1;
    HostAtIndex(v, |v| - 1, a);
    if w[|w| - 1].end <= a { HostAtBeyond(w, a, a); }
  }

  /** Nor does it start later: what lies in front of it would have been joined. */
  lemma SameStart(v: seq<PhysBlock>, w: seq<PhysBlock>)
    requires Ascending(v) && Joined(v) && Ascending(w) && v != [] && w != []
    requires v[|v| - 1].end == w[|w| - 1].end && forall a :: HostAt(v, a) == HostAt(w, a)
    ensures v[|v| - 1].start <= w[|w| - 1].start
  {
    var x, y := v[|v| - 1], w[|w| - 1];
    if y.start < x.start {
      var a := x.start - 1;
      HostAtIndex(w, |w| - 1, a);
      HostAtIndex(w, |w| - 1, x.start);
      HostAtIndex(v, |v| - 1, x.start);
      assert HostAt(v, a) == HostAt(w, a);
      var i := HostAtSome(v, a);
      Unjoined(v, i, a);
    }
  }

  /** The address right in front of the last block, with the host address in front of its. */
  lemma Unjoined(v: seq<PhysBlock>, i: nat, a: int)
    requires Ascending(v) && i < |v| && v[i].Has(a)
    requires a == v[|v| - 1].start - 1 && v[i].HostAt(a) == v[|v| - 1].host - 1
    ensures !Joined(v)
  {
    var j := i + 1;
    assert j < |v| && v[i].Continues(v[j].start, v[j].host);
  }

  // ---------------------------------------------------------------- mappings

  datatype Mapping = Mapping(phys: int, virt: int, length: int) {
    predicate Has(a: int) { phys <= a < phys + length }
  }

  predicate Sorted(list: seq<Mapping>)
  {
    forall i, j :: 0 <= i < j < |list| ==> list[i].phys <= list[j].phys
  }

  /** Some mapping has the address. */
  ghost predicate Maps(list: seq<Mapping>, a: int)
  {
    exists i :: 0 <= i < |list| && list[i].Has(a)
  }

  function SortedAt(list: seq<Mapping>, phys: int): (i: nat)
    ensures i <= |list|
    ensures forall k :: 0 <= k < i ==> list[k].phys < phys
    ensures i < |list| ==> list[i].phys >= phys
  {
    if list == [] || list[0].phys >= phys then 0 else 1 + SortedAt(list[1..], phys)
  }

  lemma CreatedSorted(list: seq<Mapping>, m: Mapping, i: nat)
    requires Sorted(list) && i <= |list| && (forall k :: 0 <= k < i ==> list[k].phys < m.phys)
    requires i < |list| ==> list[i].phys >= m.phys
    ensures i == SortedAt(list, m.phys) && Sorted(list[..i] + [m] + list[i..])
  {
    hide SortedAt;
    var after := list[..i] + [m] + list[i..];
    assert |after| == |list| + 1;
    forall j, k | 0 <= j < k < |after| ensures after[j].phys <= after[k].phys {
      SplicedAt(list, m, i, j);
      SplicedAt(list, m, i, k);
    }
  }

  lemma SplicedAt(list: seq<Mapping>, m: Mapping, i: nat, k: nat)
    requires i <= |list| && k <= |list|
    ensures (list[..i] + [m] + list[i..])[k] == if k < i then list[k] else if k == i then m else list[k - 1]
  {
  }

  /** The mapping as the filter leaves it; a zero virtual address means none and stays. */
  function Clip(m: Mapping, begin: int, length: int): Mapping
  {
    var cut := Max(begin - m.phys, 0);
    var rest := m.length - cut;
    Mapping(m.phys + cut, if m.virt != 0 then m.virt + cut else 0, rest - Max(m.phys + cut + rest - begin - length, 0))
  }

  predicate Outside(m: Mapping, begin: int, length: int)
  {
    m.phys >= begin + length || m.phys + m.length <= begin
  }

  /** What memory_mapping_filter leaves. */
  function Filtered(list: seq<Mapping>, begin: int, length: int): seq<Mapping>
  {
    if list == [] then []
    else
      var front, m := Filtered(list[..|list| - 1], begin, length), list[|list| - 1];
      if Outside(m, begin, length) then front else front + [Clip(m, begin, length)]
  }

  /** Clipping keeps exactly the part in the range, and where it is mapped. */
  lemma ClipIs(m: Mapping, begin: int, length: nat, a: int)
    requires !Outside(m, begin, length)
    ensures Clip(m, begin, length).Has(a) <==> m.Has(a) && begin <= a < begin + length
    ensures m.virt != 0 ==> Clip(m, begin, length).virt - Clip(m, begin, length).phys == m.virt - m.phys
    ensures m.virt == 0 ==> Clip(m, begin, length).virt == 0
  {
  }

  /** After filtering, exactly the mapped addresses in the range are mapped. */
  lemma {:induction false} FilteredMaps(list: seq<Mapping>, begin: int, length: nat, a: int)
    ensures Maps(Filtered(list, begin, length), a) <==> Maps(list, a) && begin <= a < begin + length
    decreases |list|
  {
    if list != [] {
      var front, m := list[..|list| - 1], list[|list| - 1];
      FilteredMaps(front, begin, length, a);
      MapsAppend(front, m, a);
      assert front + [m] == list;
      if !Outside(m, begin, length) {
        ClipIs(m, begin, length, a);
        MapsAppend(Filtered(front, begin, length), Clip(m, begin, length), a);
      }
    }
  }

  /** Every mapping left is the clipped form of one that was there. */
  lemma {:induction false} FilteredFrom(list: seq<Mapping>, begin: int, length: nat, i: nat) returns (k: nat)
    requires i < |Filtered(list, begin, length)|
    ensures k < |list| && !Outside(list[k], begin, length)
            && Filtered(list, begin, length)[i] == Clip(list[k], begin, length)
    decreases |list|
  {
    var front, m := list[..|list| - 1], list[|list| - 1];
    if i < |Filtered(front, begin, length)| {
      k := FilteredFrom(front, begin, length, i);
    } else {
      k := |list| - 1;
    }
  }

  lemma {:induction false} FilteredLength(list: seq<Mapping>, begin: int, length: nat)
    ensures |Filtered(list, begin, length)| <= |list|
    decreases |list|
  {
    if list != [] { FilteredLength(list[..|list| - 1], begin, length); }
  }

  lemma MapsAppend(list: seq<Mapping>, m: Mapping, a: int)
    ensures Maps(list + [m], a) <==> Maps(list, a) || m.Has(a)
  {
    if Maps(list, a) {
      var i :| 0 <= i < |list| && list[i].Has(a);
      assert (list + [m])[i].Has(a);
    }
    if m.Has(a) { assert (list + [m])[|list|].Has(a); }
  }

  class MappingList {
    var list: seq<Mapping>
    var num: nat

    constructor ()
      ensures list == [] && num == 0
    {
      list, num := [], 0;
    }

    /** create_new_memory_mapping: in order of physical address, before its equals. */
    method Create(m: Mapping)
      requires Sorted(list) && num == |list|
      modifies this
      ensures Sorted(list) && num == |list|
      ensures var i := SortedAt(old(list), m.phys); list == old(list)[..i] + [m] + old(list)[i..]
    {
      hide Sorted, SortedAt;
      var i := 0;
      while i < |list| && list[i].phys < m.phys
        invariant i <= |list| && forall k :: 0 <= k < i ==> list[k].phys < m.phys
      {
        i := i + 1;
      }
      CreatedSorted(list, m, i);
      num := num + 1;
      list := list[..i] + [m] + list[i..];
    }

    /** qemu_get_guest_simple_memory_mapping: one mapping a block, without virtual addresses. */
    method Simple(blocks: seq<PhysBlock>)
      requires Ascending(blocks) && list == [] && num == 0
      modifies this
      ensures Sorted(list) && num == |list| && list == MappingsOf(blocks)
    {
      for i := 0 to |blocks|
        invariant Sorted(list) && num == |list| == i && forall k :: 0 <= k < i ==> list[k] == MappingOf(blocks[k])
      {
        assert forall k :: 0 <= k < i ==> list[k].phys < blocks[i].start;
        assert SortedAt(list, blocks[i].start) == i;
        Create(MappingOf(blocks[i]));
      }
    }

    /** memory_mapping_filter. */
    method Filter(begin: int, length: nat)
      requires num == |list|
      modifies this
      ensures list == Filtered(old(list), begin, length) && num == |list|
    {
      ghost var all := list;
      var i, n := 0, 0;
      while i < |list|
        invariant 0 <= i <= |list| && num == |list| && n <= |all|
        invariant list[..i] == Filtered(all[..n], begin, length) && list[i..] == all[n..]
        decreases |list| - i
      {
        assert list[i] == list[i..][0] == all[n] && all[..n + 1][..n] == all[..n];
        assert list[i + 1..] == list[i..][1..] == all[n + 1..];
        var cur := list[i];
        if cur.phys >= begin + length || cur.phys + cur.length <= begin {
          list := list[..i] + list[i + 1..];
          num := num - 1;
        } else {
          if cur.phys < begin {
            cur := Mapping(begin, if cur.virt != 0 then cur.virt + (begin - cur.phys) else 0,
                           cur.length - (begin - cur.phys));
          }
          if cur.phys + cur.length > begin + length {
            cur := cur.(length := cur.length - (cur.phys + cur.length - begin - length));
          }
          list := list[i := cur];
          i := i + 1;
        }
        n := n + 1;
      }
      assert n == |all| && all[..n] == all && list[..i] == list;
    }
  }

  /** The mapping of a whole block. */
  function MappingOf(b: PhysBlock): Mapping { Mapping(b.start, 0, b.end - b.start) }

  function MappingsOf(blocks: seq<PhysBlock>): (r: seq<Mapping>)
    ensures |r| == |blocks| && forall i :: 0 <= i < |r| ==> r[i] == MappingOf(blocks[i])
  {
    seq(|blocks|, i requires 0 <= i < |blocks| => MappingOf(blocks[i]))
  }
}
