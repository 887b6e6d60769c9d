/**
  The table of KVM memory slots: `kvm_alloc_slot`, `kvm_lookup_overlapping_slot`
  and `kvm_set_phys_mem` of kvm-all.c, without the workaround for kernels that
  cannot join slots.
 */
module KvmSlots {
  import opened Common
  import opened Arithmetic

  const SLOTS: nat := 32

  /** Guest addresses [start, start + size) backed by host memory from `ram` on; free when `size` is 0. */
  datatype Slot = Slot(start: nat, size: nat, ram: int) {
    function End(): nat { start + size }

    predicate Covers(a: int) { start <= a < End() }

    predicate Overlaps(lo: int, hi: int) { size != 0 && start < hi && lo < End() }
  }

  // ---------------------------------------------------------------- the table as a value

  ghost predicate Disjoint(s: seq<Slot>)
  {
    forall i, j :: 0 <= i < j < |s| && s[i].size != 0 && s[j].size != 0 ==>
      s[i].End() <= s[j].start || s[j].End() <= s[i].start
  }

  predicate CoveredBy(s: seq<Slot>, i: int, a: int)
  {
    0 <= i < |s| && s[i].Covers(a)
  }

  /** The host address behind a guest address. */
  ghost function Host(s: seq<Slot>, a: int): Option<int>
  {
    if i :| CoveredBy(s, i, a) then Some(s[i].ram + (a - s[i].start)) else None
  }

  lemma HostAt(s: seq<Slot>, i: nat, a: int)
    requires Disjoint(s) && CoveredBy(s, i, a)
    ensures Host(s, a) == Some(s[i].ram + (a - s[i].start))
  {
  }

  /** An address that the same slots cover in two tables has the same host address. */
  lemma HostSame(s: seq<Slot>, t: seq<Slot>, a: int)
    requires Disjoint(s) && Disjoint(t)
    requires forall i :: CoveredBy(s, i, a) ==> CoveredBy(t, i, a) && t[i] == s[i]
    requires forall i :: CoveredBy(t, i, a) ==> CoveredBy(s, i, a)
    ensures Host(s, a) == Host(t, a)
  {
    if i :| CoveredBy(s, i, a) {
      HostAt(s, i, a);
      HostAt(t, i, a);
    }
  }

  // ---------------------------------------------------------------- counting

  function Live(s: seq<Slot>): nat
  {
    if s == [] then 0 else (if s[0].size != 0 then 1 else 0) + Live(s[1..])
  }

  function Overlapping(s: seq<Slot>, lo: int, hi: int): nat
  {
    if s == [] then 0 else (if s[0].Overlaps(lo, hi) then 1 else 0) + Overlapping(s[1..], lo, hi)
  }

  lemma {:induction false} LiveUpdate(s: seq<Slot>, k: nat, x: Slot)
    requires k < |s|
    ensures Live(s[k := x]) == Live(s) - (if s[k].size != 0 then 1 else 0) + (if x.size != 0 then 1 else 0)
  {
    if k == 0 {
      assert s[k := x][1..] == s[1..];
    } else {
      LiveUpdate(s[1..], k - 1, x);
      assert s[k := x][1..] == s[1..][k - 1 := x];
    }
  }

  lemma {:induction false} OverlappingUpdate(s: seq<Slot>, k: nat, x: Slot, lo: int, hi: int)
    requires k < |s|
    ensures Overlapping(s[k := x], lo, hi)
            == Overlapping(s, lo, hi) - (if s[k].Overlaps(lo, hi) then 1 else 0) + (if x.Overlaps(lo, hi) then 1 else 0)
  {
    if k == 0 {
      assert s[k := x][1..] == s[1..];
    } else {
      OverlappingUpdate(s[1..], k - 1, x, lo, hi);
      assert s[k := x][1..] == s[1..][k - 1 := x];
    }
  }

  lemma {:induction false} LiveFull(s: seq<Slot>)
    requires forall i :: 0 <= i < |s| ==> s[i].size != 0
    ensures Live(s) == |s|
  {
    if s != [] { LiveFull(s[1..]); }
  }

  // ---------------------------------------------------------------- one slot at a time

  /** Every address outside [lo, hi) has the host address it had. */
  ghost predicate SameOutside(s: seq<Slot>, t: seq<Slot>, lo: int, hi: int)
  {
    forall a :: !(lo <= a < hi) ==> Host(t, a) == Host(s, a)
  }

  /** The slot apart from its neighbours: no live slot of the table overlaps [x.start, x.End()). */
  ghost predicate FitsIn(s: seq<Slot>, x: Slot)
  {
    forall i :: 0 <= i < |s| && s[i].size != 0 ==> s[i].End() <= x.start || x.End() <= s[i].start
  }

  /** Filling a free slot adds its range and nothing else. */
  lemma Filled(s: seq<Slot>, k: nat, x: Slot)
    requires Disjoint(s) && k < |s| && s[k].size == 0 && FitsIn(s, x)
    ensures Disjoint(s[k := x])
    ensures forall a :: Host(s[k := x], a) == if x.Covers(a) then Some(x.ram + (a - x.start)) else Host(s, a)
  {
    var t := s[k := x];
    forall a ensures Host(t, a) == if x.Covers(a) then Some(x.ram + (a - x.start)) else Host(s, a) {
      if x.Covers(a) {
        HostAt(t, k, a);
      } else {
        assert forall i :: CoveredBy(s, i, a) <==> CoveredBy(t, i, a);
        HostSame(s, t, a);
      }
    }
  }

  /** Freeing a slot removes its range and nothing else. */
  lemma Freed(s: seq<Slot>, k: nat)
    requires Disjoint(s) && k < |s|
    ensures var t := s[k := s[k].(size := 0)];
            && Disjoint(t) && (s[k].size != 0 ==> FitsIn(t, s[k]))
            && forall a :: Host(t, a) == if s[k].Covers(a) then None else Host(s, a)
  {
    var t := s[k := s[k].(size := 0)];
    forall i, j | 0 <= i < j < |t| && t[i].size != 0 && t[j].size != 0
      ensures t[i].End() <= t[j].start || t[j].End() <= t[i].start
    {
      assert t[i] == s[i] && t[j] == s[j];
    }
    forall a ensures Host(t, a) == if s[k].Covers(a) then None else Host(s, a) {
      if s[k].Covers(a) {
        forall i ensures !CoveredBy(t, i, a) {
          assert i != k && 0 <= i < |s| && s[i].size != 0 ==> s[i].End() <= s[k].start || s[k].End() <= s[i].start;
        }
      } else {
        assert forall i :: CoveredBy(s, i, a) <==> CoveredBy(t, i, a);
        HostSame(s, t, a);
      }
    }
  }

  /** `t` is `s` with `x` added in a free slot. */
  ghost predicate Added(s: seq<Slot>, t: seq<Slot>, x: Slot)
  {
    exists k :: 0 <= k < |s| && s[k].size == 0 && t == s[k := x]
  }

  /** What adding a slot does, for a range it stays out of. */
  lemma AddedOutside(s: seq<Slot>, t: seq<Slot>, x: Slot, lo: int, hi: int)
    requires Disjoint(s) && FitsIn(s, x) && x.size != 0 && Added(s, t, x) && !x.Overlaps(lo, hi)
    ensures Disjoint(t) && |t| == |s| && Live(t) == Live(s) + 1
    ensures Overlapping(t, lo, hi) == Overlapping(s, lo, hi)
    ensures forall a :: Host(t, a) == if x.Covers(a) then Some(x.ram + (a - x.start)) else Host(s, a)
  {
    var k :| 0 <= k < |s| && s[k].size == 0 && t == s[k := x];
    Filled(s, k, x);
    LiveUpdate(s, k, x);
    OverlappingUpdate(s, k, x, lo, hi);
  }

  /** `t` is `s` with the part of slot `k` inside [lo, hi) unmapped. */
  ghost predicate Cut(s: seq<Slot>, t: seq<Slot>, k: nat, lo: nat, hi: nat)
    requires k < |s|
  {
    && Disjoint(t) && |t| == |s|
    && (forall a :: Host(t, a) == if lo <= a < hi && s[k].Covers(a) then None else Host(s, a))
    && Overlapping(t, lo, hi) == Overlapping(s, lo, hi) - 1
    && Live(t) == Live(s) - 1 + (if s[k].start < lo then 1 else 0) + (if hi < s[k].End() then 1 else 0)
  }

  lemma FitsPart(s: seq<Slot>, x: Slot, part: Slot)
    requires FitsIn(s, x) && x.start <= part.start && part.End() <= x.End()
    ensures FitsIn(s, part)
  {
  }

  lemma AddedFits(s: seq<Slot>, t: seq<Slot>, x: Slot, y: Slot)
    requires Added(s, t, x) && FitsIn(s, y) && (x.End() <= y.start || y.End() <= x.start)
    ensures FitsIn(t, y)
  {
  }

  /** `t` is `s`, with `x` added if there is such a part. */
  ghost predicate AddedIf(s: seq<Slot>, t: seq<Slot>, x: Option<Slot>)
  {
    if x.Some? then Added(s, t, x.value) else t == s
  }

  /** What an optional outer part adds to a table, seen from a range it stays out of. */
  lemma PutBack(s: seq<Slot>, t: seq<Slot>, x: Option<Slot>, lo: int, hi: int)
    requires Disjoint(s) && AddedIf(s, t, x)
    requires x.Some? ==> FitsIn(s, x.value) && x.value.size != 0 && !x.value.Overlaps(lo, hi)
    ensures Disjoint(t) && |t| == |s| && Live(t) == Live(s) + (if x.Some? then 1 else 0)
    ensures Overlapping(t, lo, hi) == Overlapping(s, lo, hi)
    ensures forall a ::
              Host(t, a) == if x.Some? && x.value.Covers(a) then Some(x.value.ram + (a - x.value.start)) else Host(s, a)
  {
    hide Disjoint, Host, Live, Overlapping, FitsIn, Added;
    if x.Some? { AddedOutside(s, t, x.value, lo, hi); }
  }

  function PrefixOf(o: Slot, lo: nat): Option<Slot>
  {
    if o.start < lo then Some(Slot(o.start, lo - o.start, o.ram)) else None
  }

  function SuffixOf(o: Slot, hi: nat): Option<Slot>
    requires o.start < hi
  {
    if hi < o.End() then Some(Slot(hi, o.size - (hi - o.start), o.ram + (hi - o.start))) else None
  }

  /** Freeing the slot and putting its outer parts back. */
  lemma CutDone(s: seq<Slot>, s1: seq<Slot>, s2: seq<Slot>, s3: seq<Slot>, k: nat, lo: nat, hi: nat)
    requires Disjoint(s) && k < |s| && s[k].Overlaps(lo, hi) && lo < hi
    requires s1 == s[k := s[k].(size := 0)]
    requires AddedIf(s1, s2, PrefixOf(s[k], lo)) && AddedIf(s2, s3, SuffixOf(s[k], hi))
    ensures Cut(s, s3, k, lo, hi)
  {
    hide Disjoint, Host, Live, Overlapping, FitsIn, AddedIf;
    var o := s[k];
    Freed(s, k);
    LiveUpdate(s, k, o.(size := 0));
    OverlappingUpdate(s, k, o.(size := 0), lo, hi);
    PartsFit(s1, s2, o, lo, hi);
    PutBack(s1, s2, PrefixOf(o, lo), lo, hi);
    PutBack(s2, s3, SuffixOf(o, hi), lo, hi);
    forall a ensures Host(s3, a) == if lo <= a < hi && o.Covers(a) then None else Host(s, a) {
      if o.Covers(a) { HostAt(s, k, a); }
    }
  }

  lemma PartsFit(s1: seq<Slot>, s2: seq<Slot>, o: Slot, lo: nat, hi: nat)
    requires FitsIn(s1, o) && o.start < hi && lo < o.End() && lo < hi && AddedIf(s1, s2, PrefixOf(o, lo))
    ensures PrefixOf(o, lo).Some? ==> FitsIn(s1, PrefixOf(o, lo).value)
    ensures SuffixOf(o, hi).Some? ==> FitsIn(s2, SuffixOf(o, hi).value)
  {
    var p, q := PrefixOf(o, lo), SuffixOf(o, hi);
    if p.Some? { FitsPart(s1, o, p.value); }
    if q.Some? {
      FitsPart(s1, o, q.value);
      if p.Some? { AddedFits(s1, s2, p.value, q.value); }
    }
  }

  // ---------------------------------------------------------------- page trimming

  function RoundUp(n: nat): nat { (n + TARGET_PAGE_SIZE - 1) / TARGET_PAGE_SIZE * TARGET_PAGE_SIZE }

  datatype Range = Range(lo: nat, len: nat)

  /** The page-sized part of a section kvm_set_phys_mem works on, if it does not give up. */
  function Trim(start: nat, size: nat): Option<Range>
  {
    var delta := RoundUp(size) - size;
    if delta > size then None
    else
      var lo, len := start + delta, RoundDown(size - delta);
      if len == 0 || lo % TARGET_PAGE_SIZE != 0 then None else Some(Range(lo, len))
  }

  lemma RoundUpIs(n: nat)
    ensures n <= RoundUp(n)
            && RoundUp(n) - n == (if n % TARGET_PAGE_SIZE == 0 then 0 else TARGET_PAGE_SIZE - n % TARGET_PAGE_SIZE)
    ensures RoundUp(n) % TARGET_PAGE_SIZE == 0
  {
    var p, q, r := TARGET_PAGE_SIZE, n / TARGET_PAGE_SIZE, n % TARGET_PAGE_SIZE;
    assert n == q * p + r;
    if r == 0 {
      Quotient(n + p - 1, p, q, p - 1);
      Quotient(n, p, q, 0);
    } else {
      MulDistribute(q, 1, p);
      Quotient(n + p - 1, p, q + 1, r - 1);
      Quotient((q + 1) * p, p, q + 1, 0);
    }
  }

  lemma AlignedAdd(a: nat, b: nat)
    requires a % TARGET_PAGE_SIZE == 0
    ensures (a + b) % TARGET_PAGE_SIZE == b % TARGET_PAGE_SIZE
    ensures RoundDown(a + b) == a + RoundDown(b)
  {
    var p, q := TARGET_PAGE_SIZE, a / TARGET_PAGE_SIZE;
    var q', r' := b / TARGET_PAGE_SIZE, b % TARGET_PAGE_SIZE;
    MulDistribute(q, q', p);
    Quotient(a + b, p, q + q', r');
  }

  /**
    Moving `start` up by what rounding up `size` takes lands on a page boundary just when the two agree modulo a page.
   */
  lemma TrimAligns(start: nat, size: nat)
    ensures var delta := RoundUp(size) - size;
            (start + delta) % TARGET_PAGE_SIZE == 0 <==> start % TARGET_PAGE_SIZE == size % TARGET_PAGE_SIZE
    ensures start % TARGET_PAGE_SIZE == size % TARGET_PAGE_SIZE ==> start + (RoundUp(size) - size) == RoundUp(start)
  {
    RoundUpIs(size);
    RoundUpIs(start);
    var p, delta := TARGET_PAGE_SIZE, RoundUp(size) - size;
    var q, r := start / TARGET_PAGE_SIZE, start % TARGET_PAGE_SIZE;
    assert start == q * p + r;
    if r + delta < p {
      Quotient(start + delta, p, q, r + delta);
    } else {
      MulDistribute(q, 1, p);
      Quotient(start + delta, p, q + 1, r + delta - p);
    }
  }

  /**
    What trimming keeps: all whole pages inside the section, but only when `start` and `size` agree modulo the page
    size; otherwise the section is dropped even if it contains whole pages.
   */
  lemma TrimKeeps(start: nat, size: nat)
    ensures var first, last := RoundUp(start), RoundDown(start + size);
            Trim(start, size) ==
            if first < last && start % TARGET_PAGE_SIZE == size % TARGET_PAGE_SIZE
            then Some(Range(first, last - first)) else None
  {
    var delta := RoundUp(size) - size;
    RoundUpIs(size);
    RoundUpIs(start);
    TrimAligns(start, size);
    if start % TARGET_PAGE_SIZE == size % TARGET_PAGE_SIZE {
      var first := RoundUp(start);
      if delta <= size {
        AlignedAdd(first, size - delta);
        hide RoundUp, RoundDown;
        assert first + (size - delta) == start + size;
      } else {
        assert start + size < first;
      }
    }
  }

  /** Two pages and one byte from a page boundary on: both whole pages are lost. */
  lemma TrimLoses()
    ensures RoundUp(0) == 0 && RoundDown(2 * TARGET_PAGE_SIZE + 1) == 2 * TARGET_PAGE_SIZE
    ensures Trim(0, 2 * TARGET_PAGE_SIZE + 1) == None
  {
    var p: int := TARGET_PAGE_SIZE;
    Quotient(2 * p + 1, p, 2, 1);
    Quotient(p - 1, p, 0, p - 1);
    Quotient(0, p, 0, 0);
    TrimKeeps(0, 2 * p + 1);
  }

  // ---------------------------------------------------------------- the table in place

  /** What a section asks for: its RAM to be mapped, its range to be unmapped, or nothing. */
  function Action(isRam: bool, writeable: bool, readonlyMem: bool, romdMode: bool, add: bool): Option<bool>
  {
    if !isRam && (writeable || !readonlyMem) then None
    else if !isRam && !romdMode then Some(false)
    else Some(add)
  }

  /**
    RAM is added or removed as asked. A device is never backed while guest writes must reach it or the kernel has no
    read-only slots; otherwise it is backed as asked in ROM mode, and not at all out of it.
   */
  lemma ActionIs(writeable: bool, readonlyMem: bool, romdMode: bool, add: bool)
    ensures Action(true, writeable, readonlyMem, romdMode, add) == Some(add)
    ensures writeable || !readonlyMem ==> Action(false, writeable, readonlyMem, romdMode, add) == None
    ensures !writeable && readonlyMem && romdMode ==> Action(false, writeable, readonlyMem, romdMode, add) == Some(add)
    ensures !writeable && readonlyMem && !romdMode ==>
              Action(false, writeable, readonlyMem, romdMode, add) == Some(false)
  {
  }

  /** The state of the loop of kvm_set_phys_mem over the slots overlapping [lo, hi). */
  ghost predicate Clearing(s0: seq<Slot>, s: seq<Slot>, lo: nat, hi: nat)
  {
    && |s0| == |s| == SLOTS && Disjoint(s)
    && SameOutside(s0, s, lo, hi)
    && Live(s) <= Live(s0) + 1
    && (Overlapping(s, lo, hi) > 0 ==> Live(s) <= Live(s0))
    && (s == s0 || exists a :: lo <= a < hi && Host(s, a) == None)
  }

  /** Cutting the overlapping slot with the lowest start keeps the loop's state. */
  lemma ClearingStep(s0: seq<Slot>, s: seq<Slot>, t: seq<Slot>, k: nat, lo: nat, hi: nat)
    requires lo < hi && Clearing(s0, s, lo, hi) && k < |s| && s[k].Overlaps(lo, hi) && Cut(s, t, k, lo, hi)
    requires forall i :: 0 <= i < |s| && s[i].Overlaps(lo, hi) ==> s[k].start <= s[i].start
    ensures Clearing(s0, t, lo, hi)
  {
    OverlappingPositive(s, k, lo, hi);
    if hi < s[k].End() {
      assert Overlapping(s, lo, hi) == 1 by { OnlyOverlapping(s, k, lo, hi); }
    }
    hide Disjoint, Live, Overlapping, Host;
    var a := Max(lo, s[k].start);
    assert Host(t, a) == None;
    forall b | !(lo <= b < hi) ensures Host(t, b) == Host(s0, b) {
      assert Host(s, b) == Host(s0, b);
    }
  }

  lemma {:induction false} OverlappingPositive(s: seq<Slot>, k: nat, lo: int, hi: int)
    requires k < |s| && s[k].Overlaps(lo, hi)
    ensures Overlapping(s, lo, hi) > 0
  {
    if k > 0 { OverlappingPositive(s[1..], k - 1, lo, hi); }
  }

  lemma {:induction false} NoneOverlapping(s: seq<Slot>, lo: int, hi: int)
    requires forall i :: 0 <= i < |s| ==> !s[i].Overlaps(lo, hi)
    ensures Overlapping(s, lo, hi) == 0
  {
    if s != [] { NoneOverlapping(s[1..], lo, hi); }
  }

  /** A lowest overlapping slot that reaches beyond `hi` is the only one. */
  lemma OnlyOverlapping(s: seq<Slot>, k: nat, lo: nat, hi: nat)
    requires Disjoint(s) && k < |s| && s[k].Overlaps(lo, hi) && hi < s[k].End()
    requires forall i :: 0 <= i < |s| && s[i].Overlaps(lo, hi) ==> s[k].start <= s[i].start
    ensures Overlapping(s, lo, hi) == 1
  {
    var t := s[k := s[k].(size := 0)];
    OverlappingUpdate(s, k, s[k].(size := 0), lo, hi);
    forall i | 0 <= i < |t| ensures !t[i].Overlaps(lo, hi) {
      if i != k && s[i].size != 0 {
        assert s[i].End() <= s[k].start || s[k].End() <= s[i].start;
      }
    }
    NoneOverlapping(t, lo, hi);
  }

  /** Where no slot overlaps, nothing is mapped. */
  lemma ClearedHost(s: seq<Slot>, lo: int, hi: int)
    requires forall i :: 0 <= i < |s| ==> !s[i].Overlaps(lo, hi)
    ensures forall a :: lo <= a < hi ==> Host(s, a) == None
    ensures lo < hi ==> forall x: Slot :: x.start == lo && x.End() == hi ==> FitsIn(s, x)
  {
    forall a | lo <= a < hi ensures Host(s, a) == None {
      assert forall i :: !CoveredBy(s, i, a);
    }
  }

  class KvmState {
    const slots: array<Slot>

    ghost predicate Valid()
      reads this, slots
    {
      slots.Length == SLOTS && Disjoint(slots[..])
    }

    constructor ()
      ensures Valid() && fresh(slots) && Live(slots[..]) == 0
    {
      slots := new Slot[SLOTS](i => Slot(0, 0, 0));
      new;
      NoneLive(slots[..]);
    }

    /** kvm_alloc_slot; -1 where the original aborts. */
    method AllocSlot() returns (k: int)
      ensures -1 <= k < slots.Length
      ensures k >= 0 ==> slots[k].size == 0 && forall i :: 0 <= i < k ==> slots[i].size != 0
      ensures k == -1 ==> Live(slots[..]) == slots.Length
    {
      k := 0;
      while k < slots.Length
        invariant 0 <= k <= slots.Length
        invariant forall i :: 0 <= i < k ==> slots[i].size != 0
      {
        if slots[k].size == 0 {
          return;
        }
        k := k + 1;
      }
      LiveFull(slots[..]);
      k := -1;
    }

    /** kvm_lookup_overlapping_slot. */
    method LookupOverlapping(lo: nat, hi: nat) returns (found: int)
      ensures -1 <= found < slots.Length
      ensures found == -1 ==> forall i :: 0 <= i < slots.Length ==> !slots[i].Overlaps(lo, hi)
      ensures found >= 0 ==> slots[found].Overlaps(lo, hi)
      ensures found >= 0 ==>
                forall i :: 0 <= i < slots.Length && slots[i].Overlaps(lo, hi) ==> slots[found].start <= slots[i].start
    {
      found := -1;
      for i := 0 to slots.Length
        invariant -1 <= found < i
        invariant found == -1 ==> forall j :: 0 <= j < i ==> !slots[j].Overlaps(lo, hi)
        invariant found >= 0 ==> slots[found].Overlaps(lo, hi)
        invariant found >= 0 ==>
                    forall j :: 0 <= j < i && slots[j].Overlaps(lo, hi) ==> slots[found].start <= slots[j].start
      {
        if slots[i].size == 0 || (found >= 0 && slots[found].start < slots[i].start) {
          continue;
        }
        if hi > slots[i].start && lo < slots[i].start + slots[i].size {
          found := i;
        }
      }
    }

    /** Registering a slot; fails when the table is full. */
    method Register(x: Slot) returns (ok: bool)
      requires slots.Length == SLOTS
      modifies slots
      ensures !ok ==> slots[..] == old(slots[..]) && Live(slots[..]) == SLOTS
      ensures ok ==> Added(old(slots[..]), slots[..], x)
    {
      var k := AllocSlot();
      ok := k >= 0;
      if ok {
        ghost var s := slots[..];
        slots[k] := x;
        assert s[k].size == 0 && slots[..] == s[k := x];
      }
    }

    /** The body of the loop: slot `k` is unregistered and what sticks out of [lo, hi) registered again. */
    method CutSlot(k: nat, lo: nat, hi: nat) returns (ok: bool)
      requires Valid() && k < SLOTS && slots[k].Overlaps(lo, hi) && lo < hi
      modifies slots
      ensures !ok ==> old(Live(slots[..])) == SLOTS
      ensures ok ==> Cut(old(slots[..]), slots[..], k, lo, hi)
    {
      ghost var s := slots[..];
      var o := slots[k];
      slots[k] := o.(size := 0);
      ghost var s1 := slots[..];
      assert s1 == s[k := o.(size := 0)];
      LiveUpdate(s, k, o.(size := 0));
      LiveBound(s);
      hide Disjoint, Live, Overlapping, Host, Cut, Added;
      if o.start < lo {
        ok := Register(Slot(o.start, lo - o.start, o.ram));
        if !ok { return; }
        AddedLive(s1, slots[..], Slot(o.start, lo - o.start, o.ram));
      }
      ghost var s2 := slots[..];
      ok := true;
      if o.End() > hi {
        ok := Register(Slot(hi, o.size - (hi - o.start), o.ram + (hi - o.start)));
        if !ok { return; }
      }
      CutDone(s, s1, s2, slots[..], k, lo, hi);
    }

    /** The loop of kvm_set_phys_mem: unmaps [lo, hi), unless the range is already mapped as asked. */
    method ClearRange(lo: nat, hi: nat, ram: int, add: bool) returns (mapped: bool, ok: bool)
      requires Valid() && lo < hi
      modifies slots
      ensures !ok ==> old(Live(slots[..])) == SLOTS
      ensures ok ==> Valid() && Clearing(old(slots[..]), slots[..], lo, hi)
      ensures ok && !mapped ==> forall i :: 0 <= i < SLOTS ==> !slots[i].Overlaps(lo, hi)
      ensures ok && mapped ==> add && slots[..] == old(slots[..])
      ensures ok && mapped ==> forall a :: lo <= a < hi ==> Host(slots[..], a) == Some(ram + (a - lo))
    {
      ghost var s0 := slots[..];
      mapped, ok := false, true;
      var k := LookupOverlapping(lo, hi);
      while k >= 0
        invariant Valid() && Clearing(s0, slots[..], lo, hi) && -1 <= k < SLOTS && ok && !mapped
        invariant k == -1 ==> forall i :: 0 <= i < SLOTS ==> !slots[i].Overlaps(lo, hi)
        invariant k >= 0 ==> slots[k].Overlaps(lo, hi)
        invariant k >= 0 ==>
                    forall i :: 0 <= i < SLOTS && slots[i].Overlaps(lo, hi) ==> slots[k].start <= slots[i].start
        decreases Overlapping(slots[..], lo, hi)
      {
        ghost var s := slots[..];
        if add && lo >= slots[k].start && hi <= slots[k].End() && ram - lo == slots[k].ram - slots[k].start {
          AlreadyMapped(s0, s, k, lo, hi, ram);
          return true, true;
        }
        OverlappingPositive(s, k, lo, hi);
        LiveBound(s0);
        ok := CutSlot(k, lo, hi);
        if !ok { return; }
        ClearingStep(s0, s, slots[..], k, lo, hi);
        k := LookupOverlapping(lo, hi);
      }
    }

    /** kvm_set_phys_mem for a section whose first byte is backed at host address `host`. */
    method SetPhysMem(start: nat, size: nat, host: int, isRam: bool, writeable: bool, readonlyMem: bool,
                      romdMode: bool, add: bool) returns (ok: bool)
      requires Valid()
      modifies slots
      ensures !ok ==> old(Live(slots[..])) > SLOTS - 2
      ensures ok ==> Valid() && Live(slots[..]) <= old(Live(slots[..])) + 2
      ensures ok ==>
                var action, range := Action(isRam, writeable, readonlyMem, romdMode, add), Trim(start, size);
                forall a :: Host(slots[..], a) ==
                            if action.Some? && range.Some? && range.value.lo <= a < range.value.lo + range.value.len
                            then (if action.value then Some(host + (a - start)) else None)
                            else old(Host(slots[..], a))
    {
      hide Host, Live, Action, Disjoint;
      ok := true;
      var action, range := Action(isRam, writeable, readonlyMem, romdMode, add), Trim(start, size);
      if range.None? || action.None? {
        return;
      }
      var lo, hi := range.value.lo, range.value.lo + range.value.len;
      var ram := host + (lo - start);
      ghost var s0 := slots[..];
      LiveBound(s0);
      var mapped;
      mapped, ok := ClearRange(lo, hi, ram, action.value);
      if !ok || mapped {
        return;
      }
      ghost var s := slots[..];
      ClearedHost(s, lo, hi);
      if !action.value {
        return;
      }
      var x := Slot(lo, hi - lo, ram);
      ok := Register(x);
      if ok { AddedRange(s, slots[..], x); }
    }
  }

  /** A slot that contains the range with the same offset already maps it, and nothing has been cut yet. */
  lemma AlreadyMapped(s0: seq<Slot>, s: seq<Slot>, k: nat, lo: nat, hi: nat, ram: int)
    requires Clearing(s0, s, lo, hi) && k < |s| && lo < hi
    requires s[k].start <= lo && hi <= s[k].End() && ram - lo == s[k].ram - s[k].start
    ensures s == s0
    ensures forall a :: lo <= a < hi ==> Host(s, a) == Some(ram + (a - lo))
  {
    forall a | lo <= a < hi ensures Host(s, a) == Some(ram + (a - lo)) {
      HostAt(s, k, a);
    }
  }

  lemma AddedRange(s: seq<Slot>, t: seq<Slot>, x: Slot)
    requires Disjoint(s) && FitsIn(s, x) && x.size != 0 && Added(s, t, x)
    ensures Disjoint(t) && |t| == |s| && Live(t) == Live(s) + 1
    ensures forall a :: Host(t, a) == if x.Covers(a) then Some(x.ram + (a - x.start)) else Host(s, a)
  {
    AddedOutside(s, t, x, x.End(), x.End());
  }

  lemma {:induction false} LiveBound(s: seq<Slot>)
    ensures Live(s) <= |s|
  {
    if s != [] { LiveBound(s[1..]); }
  }

  lemma AddedLive(s: seq<Slot>, t: seq<Slot>, x: Slot)
    requires Added(s, t, x) && x.size != 0
    ensures Live(t) == Live(s) + 1
  {
    var k :| 0 <= k < |s| && s[k].size == 0 && t == s[k := x];
    LiveUpdate(s, k, x);
  }

  lemma {:induction false} NoneLive(s: seq<Slot>)
    requires forall i :: 0 <= i < |s| ==> s[i].size == 0
    ensures Live(s) == 0
  {
    if s != [] { NoneLive(s[1..]); }
  }
}
