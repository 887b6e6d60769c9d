/**
  Telling listeners how a flat view changed: `flatrange_equal` and the two
  passes of `address_space_update_topology_pass` of memory.c.
 */
module Topology {
  import opened Common
  import opened MemoryRegion
  import opened FlatView

  /** The MemoryRegionSection a listener is handed for a range. */
  datatype MemorySection = MemorySection(mr: RegionId, offset: int, addr: AddrRange, readonly: bool)

  function SectionOf(fr: FlatRange): MemorySection { MemorySection(fr.mr, fr.offset, fr.addr, fr.readonly) }

  datatype Event =
    | RegionDel(section: MemorySection)
    | RegionAdd(section: MemorySection)
    | RegionNop(section: MemorySection)
    | LogStart(section: MemorySection)
    | LogStop(section: MemorySection)

  /** flatrange_equal: the dirty log mask does not count. */
  predicate Equal(a: FlatRange, b: FlatRange)
  {
    a.mr == b.mr && a.addr == b.addr && a.offset == b.offset && a.romdMode == b.romdMode && a.readonly == b.readonly
  }

  // ---------------------------------------------------------------- what should be reported

  predicate Matched(fr: FlatRange, view: seq<FlatRange>)
  {
    exists i :: 0 <= i < |view| && Equal(fr, view[i])
  }

  /** `fr` is in `view` and was logged there, or not, as `logged` says. */
  predicate MatchedLogged(fr: FlatRange, view: seq<FlatRange>, logged: bool)
  {
    exists i :: 0 <= i < |view| && Equal(fr, view[i]) && (view[i].logMask != 0) == logged
  }

  /** The old ranges that are gone, in order. */
  function Deletions(before: seq<FlatRange>, after: seq<FlatRange>): seq<Event>
  {
    if before == [] then []
    else
      var last := before[|before| - 1];
      Deletions(before[..|before| - 1], after) + if Matched(last, after) then [] else [RegionDel(SectionOf(last))]
  }

  function LogChange(fr: FlatRange, before: seq<FlatRange>): seq<Event>
  {
    if fr.logMask == 0 && MatchedLogged(fr, before, true) then [LogStop(SectionOf(fr))]
    else if fr.logMask != 0 && MatchedLogged(fr, before, false) then [LogStart(SectionOf(fr))]
    else []
  }

  /** What is reported for one new range. */
  function Addition(fr: FlatRange, before: seq<FlatRange>): seq<Event>
  {
    if Matched(fr, before) then [RegionNop(SectionOf(fr))] + LogChange(fr, before) else [RegionAdd(SectionOf(fr))]
  }

  /** All new ranges, in order, each as added or as kept. */
  function Additions(before: seq<FlatRange>, after: seq<FlatRange>): seq<Event>
  {
    if after == [] then []
    else Additions(before, after[..|after| - 1]) + Addition(after[|after| - 1], before)
  }

  // ---------------------------------------------------------------- the pass

  /** The merge has passed `i` old and `j` new ranges without leaving a match across the cut. */
  ghost predicate Separated(before: seq<FlatRange>, after: seq<FlatRange>, i: nat, j: nat)
  {
    && i <= |before| && j <= |after|
    && (forall k, l :: 0 <= k < i && j <= l < |after| ==> !Equal(before[k], after[l]))
    && (forall k, l :: i <= k < |before| && 0 <= l < j ==> !Equal(before[k], after[l]))
  }

  lemma Sorted(view: seq<FlatRange>, i: nat, j: nat)
    requires WellFormed(view) && i < j < |view|
    ensures view[i].addr.start < view[j].addr.start
  {
  }

  lemma StepOld(before: seq<FlatRange>, after: seq<FlatRange>, i: nat, j: nat)
    requires WellFormed(before) && WellFormed(after) && Separated(before, after, i, j) && i < |before|
    requires j < |after| ==>
               (before[i].addr.start < after[j].addr.start
                || (before[i].addr.start == after[j].addr.start && !Equal(before[i], after[j])))
    ensures Separated(before, after, i + 1, j)
    ensures Deletions(before[..i + 1], after) == Deletions(before[..i], after) + [RegionDel(SectionOf(before[i]))]
  {
    hide WellFormed, Equal, Separated;
    OldUnmatched(before, after, i, j);
    assert before[..i + 1][..i] == before[..i];
  }

  lemma OldUnmatched(before: seq<FlatRange>, after: seq<FlatRange>, i: nat, j: nat)
    requires WellFormed(before) && WellFormed(after) && Separated(before, after, i, j) && i < |before|
    requires j < |after| ==>
               (before[i].addr.start < after[j].addr.start
                || (before[i].addr.start == after[j].addr.start && !Equal(before[i], after[j])))
    ensures !Matched(before[i], after) && Separated(before, after, i + 1, j)
  {
    hide Deletions, Additions;
    forall l | 0 <= l < |after| ensures !Equal(before[i], after[l]) {
      if l > j { Sorted(after, j, l); }
      assert l < j ==> !Equal(before[i], after[l]);
    }
  }

  lemma StepNew(before: seq<FlatRange>, after: seq<FlatRange>, i: nat, j: nat)
    requires WellFormed(before) && WellFormed(after) && Separated(before, after, i, j) && j < |after|
    requires i < |before| ==> after[j].addr.start < before[i].addr.start
    ensures Separated(before, after, i, j + 1)
    ensures Additions(before, after[..j + 1]) == Additions(before, after[..j]) + [RegionAdd(SectionOf(after[j]))]
  {
    hide WellFormed, Equal, Separated;
    NewUnmatched(before, after, i, j);
    assert after[..j + 1][..j] == after[..j];
  }

  lemma NewUnmatched(before: seq<FlatRange>, after: seq<FlatRange>, i: nat, j: nat)
    requires WellFormed(before) && WellFormed(after) && Separated(before, after, i, j) && j < |after|
    requires i < |before| ==> after[j].addr.start < before[i].addr.start
    ensures !Matched(after[j], before) && Separated(before, after, i, j + 1)
  {
    hide Deletions, Additions;
    forall k | 0 <= k < |before| ensures !Equal(after[j], before[k]) && !Equal(before[k], after[j]) {
      if k > i { Sorted(before, i, k); }
      assert k < i ==> !Equal(before[k], after[j]);
    }
  }

  /** A range in both views: kept, with a change of logging reported after it. */
  function ReportKept(frold: FlatRange, frnew: FlatRange): seq<Event>
  {
    [RegionNop(SectionOf(frnew))] +
    if frold.logMask != 0 && frnew.logMask == 0 then [LogStop(SectionOf(frnew))]
    else if frnew.logMask != 0 && frold.logMask == 0 then [LogStart(SectionOf(frnew))]
    else []
  }

  lemma StepBoth(before: seq<FlatRange>, after: seq<FlatRange>, i: nat, j: nat)
    requires WellFormed(before) && WellFormed(after) && Separated(before, after, i, j)
    requires i < |before| && j < |after| && Equal(before[i], after[j])
    ensures Separated(before, after, i + 1, j + 1)
    ensures Deletions(before[..i + 1], after) == Deletions(before[..i], after)
    ensures Additions(before, after[..j + 1]) == Additions(before, after[..j]) + ReportKept(before[i], after[j])
  {
    assert before[..i + 1][..i] == before[..i] && after[..j + 1][..j] == after[..j];
    forall l | j < l < |after| ensures !Equal(before[i], after[l]) { Sorted(after, j, l); }
    forall k | i < k < |before| ensures !Equal(before[k], after[j]) { Sorted(before, i, k); }
    assert Equal(after[j], before[i]);
    forall k | 0 <= k < |before| && k != i ensures !Equal(after[j], before[k]) {
      if k < i { Sorted(before, k, i); } else { Sorted(before, i, k); }
    }
    assert ReportKept(before[i], after[j]) == Addition(after[j], before);
  }

  /** address_space_update_topology_pass, as the events one listener sees. */
  method UpdatePass(before: seq<FlatRange>, after: seq<FlatRange>, adding: bool) returns (events: seq<Event>)
    requires WellFormed(before) && WellFormed(after)
    ensures events == if adding then Additions(before, after) else Deletions(before, after)
  {
    events := [];
    var iold, inew := 0, 0;
    assert Separated(before, after, 0, 0) && Deletions(before[..0], after) == [] && Additions(before, after[..0]) == [];
    while iold < |before| || inew < |after|
      invariant iold <= |before| && inew <= |after| && Separated(before, after, iold, inew)
      invariant events == if adding then Additions(before, after[..inew]) else Deletions(before[..iold], after)
      decreases |before| - iold + |after| - inew
    {
      hide Separated, Additions, Deletions, WellFormed, Equal;
      if iold < |before|
         && (inew == |after|
             || before[iold].addr.start < after[inew].addr.start
             || (before[iold].addr.start == after[inew].addr.start && !Equal(before[iold], after[inew])))
      {
        StepOld(before, after, iold, inew);
        if !adding {
          events := events + [RegionDel(SectionOf(before[iold]))];
        }
        iold := iold + 1;
      } else if iold < |before| && inew < |after| && Equal(before[iold], after[inew]) {
        StepBoth(before, after, iold, inew);
        if adding {
          events := events + ReportKept(before[iold], after[inew]);
        }
        iold, inew := iold + 1, inew + 1;
      } else {
        StepNew(before, after, iold, inew);
        if adding {
          events := events + [RegionAdd(SectionOf(after[inew]))];
        }
        inew := inew + 1;
      }
    }
    assert before[..iold] == before && after[..inew] == after;
  }

  // ---------------------------------------------------------------- what a listener sees

  function Sections(view: seq<FlatRange>): set<MemorySection>
  {
    set i | 0 <= i < |view| :: SectionOf(view[i])
  }

  predicate Apart(a: MemorySection, b: MemorySection)
  {
    a.addr.End() <= b.addr.start || b.addr.End() <= a.addr.start
  }

  /**
    A listener that insists on the protocol: it is only told to drop or keep what it holds, and only given ranges
    that do not overlap what it holds.
   */
  function Listen(events: seq<Event>, held: set<MemorySection>): Option<set<MemorySection>>
  {
    if events == [] then Some(held)
    else
      var s := events[0].section;
      match events[0]
      case RegionDel(_) => if s in held then Listen(events[1..], held - {s}) else None
      case RegionAdd(_) => if forall t :: t in held ==> Apart(s, t) then Listen(events[1..], held + {s}) else None
      case _ => if s in held then Listen(events[1..], held) else None
  }

  lemma {:induction false} ListenConcat(xs: seq<Event>, ys: seq<Event>, held: set<MemorySection>)
    requires Listen(xs, held).Some?
    ensures Listen(xs + ys, held) == Listen(ys, Listen(xs, held).value)
  {
    if xs == [] {
      assert xs + ys == ys;
    } else {
      assert (xs + ys)[1..] == xs[1..] + ys;
      var s := xs[0].section;
      match xs[0]
      case RegionDel(_) => ListenConcat(xs[1..], ys, held - {s});
      case RegionAdd(_) => ListenConcat(xs[1..], ys, held + {s});
      case _ => ListenConcat(xs[1..], ys, held);
    }
  }

  /** The old ranges that stay. */
  function Kept(before: seq<FlatRange>, after: seq<FlatRange>): set<MemorySection>
  {
    set i | 0 <= i < |before| && Matched(before[i], after) :: SectionOf(before[i])
  }

  lemma {:induction false} DeletionsHeard(before: seq<FlatRange>, after: seq<FlatRange>, n: nat)
    requires WellFormed(before) && n <= |before|
    ensures Listen(Deletions(before[..n], after), Sections(before))
            == Some(Kept(before[..n], after) + Sections(before[n..]))
  {
    if n == 0 {
      assert before[..0] == [] && before[0..] == before;
      assert Kept([], after) + Sections(before) == Sections(before);
    } else {
      DeletionsHeard(before, after, n - 1);
      var last := before[n - 1];
      assert before[..n][..n - 1] == before[..n - 1];
      if Matched(last, after) {
        assert Deletions(before[..n], after) == Deletions(before[..n - 1], after);
        KeepLast(before, after, n);
      } else {
        DropLast(before, after, n);
        assert Deletions(before[..n], after) == Deletions(before[..n - 1], after) + [RegionDel(SectionOf(last))];
        ListenConcat(Deletions(before[..n - 1], after), [RegionDel(SectionOf(last))], Sections(before));
        assert [RegionDel(SectionOf(last))][1..] == [];
      }
      hide Kept, Sections, WellFormed;
    }
  }

  lemma KeepLast(before: seq<FlatRange>, after: seq<FlatRange>, n: nat)
    requires 0 < n <= |before| && Matched(before[n - 1], after)
    ensures Kept(before[..n - 1], after) + Sections(before[n - 1..]) == Kept(before[..n], after) + Sections(before[n..])
  {
    SectionsSplit(before, n - 1);
    KeptStep(before, after, n);
  }

  lemma DropLast(before: seq<FlatRange>, after: seq<FlatRange>, n: nat)
    requires WellFormed(before) && 0 < n <= |before| && !Matched(before[n - 1], after)
    ensures Kept(before[..n - 1], after) + Sections(before[n - 1..]) - {SectionOf(before[n - 1])}
            == Kept(before[..n], after) + Sections(before[n..])
    ensures SectionOf(before[n - 1]) in Sections(before[n - 1..])
  {
    SectionsSplit(before, n - 1);
    KeptStep(before, after, n);
    OwnSection(before, n - 1);
    assert SectionOf(before[n - 1]) !in Kept(before[..n - 1], after);
    assert SectionOf(before[n - 1]) !in Sections(before[n..]);
  }

  /** No other range of a view has the same section. */
  lemma OwnSection(view: seq<FlatRange>, i: nat)
    requires WellFormed(view) && i < |view|
    ensures forall k :: 0 <= k < |view| && k != i ==> SectionOf(view[k]) != SectionOf(view[i])
    ensures forall k :: 0 <= k < |view| && k != i ==> Apart(SectionOf(view[k]), SectionOf(view[i]))
  {
  }

  lemma SectionsSplit(view: seq<FlatRange>, n: nat)
    requires n < |view|
    ensures Sections(view[n..]) == {SectionOf(view[n])} + Sections(view[n + 1..])
  {
    var xs, ys := view[n..], view[n + 1..];
    forall s ensures s in Sections(xs) <==> s in {SectionOf(view[n])} + Sections(ys) {
      if s in Sections(xs) {
        var i :| 0 <= i < |xs| && s == SectionOf(xs[i]);
        if i > 0 { assert ys[i - 1] == xs[i]; }
      }
      if s in Sections(ys) {
        var i :| 0 <= i < |ys| && s == SectionOf(ys[i]);
        assert xs[i + 1] == ys[i];
      }
      assert xs[0] == view[n];
    }
  }

  lemma KeptStep(before: seq<FlatRange>, after: seq<FlatRange>, n: nat)
    requires 0 < n <= |before|
    ensures Kept(before[..n], after) ==
            Kept(before[..n - 1], after) + if Matched(before[n - 1], after) then {SectionOf(before[n - 1])} else {}
  {
    var xs, ys := before[..n], before[..n - 1];
    forall s ensures s in Kept(xs, after) <==>
                     s in Kept(ys, after) + if Matched(before[n - 1], after) then {SectionOf(before[n - 1])} else {}
    {
      if s in Kept(xs, after) {
        var i :| 0 <= i < |xs| && Matched(xs[i], after) && s == SectionOf(xs[i]);
        if i < n - 1 { assert ys[i] == xs[i]; }
      }
      if s in Kept(ys, after) {
        var i :| 0 <= i < |ys| && Matched(ys[i], after) && s == SectionOf(ys[i]);
        assert xs[i] == ys[i];
      }
      assert xs[n - 1] == before[n - 1];
    }
  }

  /** Everything held during the second pass is a section of the new view. */
  lemma KeptInNew(before: seq<FlatRange>, after: seq<FlatRange>, n: nat, s: MemorySection)
    requires n <= |after| && s in Kept(before, after) + Sections(after[..n])
    ensures exists j :: 0 <= j < |after| && s == SectionOf(after[j]) && (j < n || Matched(after[j], before))
  {
    if s in Kept(before, after) {
      var i :| 0 <= i < |before| && Matched(before[i], after) && s == SectionOf(before[i]);
      var j :| 0 <= j < |after| && Equal(before[i], after[j]);
      assert Equal(after[j], before[i]);
    } else {
      var j :| 0 <= j < |after[..n]| && s == SectionOf(after[..n][j]);
      assert after[..n][j] == after[j];
    }
  }

  lemma MatchedKept(before: seq<FlatRange>, after: seq<FlatRange>, j: nat)
    requires j < |after| && Matched(after[j], before)
    ensures SectionOf(after[j]) in Kept(before, after)
  {
    var i :| 0 <= i < |before| && Equal(after[j], before[i]);
    assert Equal(before[i], after[j]);
    assert SectionOf(before[i]) == SectionOf(after[j]);
  }

  lemma AdditionHeard(before: seq<FlatRange>, after: seq<FlatRange>, n: nat)
    requires WellFormed(before) && WellFormed(after) && n < |after|
    ensures Listen(Addition(after[n], before), Kept(before, after) + Sections(after[..n]))
            == Some(Kept(before, after) + Sections(after[..n]) + {SectionOf(after[n])})
  {
    var fr, held := after[n], Kept(before, after) + Sections(after[..n]);
    if Matched(fr, before) {
      MatchedKept(before, after, n);
      assert held + {SectionOf(fr)} == held;
      var log := LogChange(fr, before);
      assert ([RegionNop(SectionOf(fr))] + log)[1..] == log;
      if log != [] { assert log[1..] == []; }
      assert Listen(log, held) == Some(held);
    } else {
      forall t | t in held ensures Apart(SectionOf(fr), t) {
        KeptInNew(before, after, n, t);
        OwnSection(after, n);
      }
      assert [RegionAdd(SectionOf(fr))][1..] == [];
    }
  }

  lemma {:induction false} AdditionsHeard(before: seq<FlatRange>, after: seq<FlatRange>, n: nat)
    requires WellFormed(before) && WellFormed(after) && n <= |after|
    ensures Listen(Additions(before, after[..n]), Kept(before, after))
         == Some(Kept(before, after) + Sections(after[..n]))
  {
    if n == 0 {
      assert after[..0] == [];
      assert Kept(before, after) + Sections([]) == Kept(before, after);
    } else {
      AdditionsHeard(before, after, n - 1);
      assert after[..n][..n - 1] == after[..n - 1];
      ListenConcat(Additions(before, after[..n - 1]), Addition(after[n - 1], before), Kept(before, after));
      AdditionHeard(before, after, n - 1);
      SectionsAppend(after, n);
      assert Kept(before, after) + Sections(after[..n - 1]) + {SectionOf(after[n - 1])}
          == Kept(before, after) + (Sections(after[..n - 1]) + {SectionOf(after[n - 1])});
    }
  }

  lemma SectionsAppend(view: seq<FlatRange>, n: nat)
    requires 0 < n <= |view|
    ensures Sections(view[..n]) == Sections(view[..n - 1]) + {SectionOf(view[n - 1])}
  {
    var xs, ys := view[..n], view[..n - 1];
    forall s ensures s in Sections(xs) <==> s in Sections(ys) + {SectionOf(view[n - 1])} {
      if s in Sections(xs) {
        var i :| 0 <= i < |xs| && s == SectionOf(xs[i]);
        if i < n - 1 { assert ys[i] == xs[i]; }
      }
      if s in Sections(ys) {
        var i :| 0 <= i < |ys| && s == SectionOf(ys[i]);
        assert xs[i] == ys[i];
      }
      assert xs[n - 1] == view[n - 1];
    }
  }

  /**
    The two passes of address_space_update_topology take a listener from exactly the old ranges to exactly the new
    ones, never asking it to hold two overlapping ranges in between.
   */
  lemma PassesHeard(before: seq<FlatRange>, after: seq<FlatRange>)
    requires WellFormed(before) && WellFormed(after)
    ensures Listen(Deletions(before, after) + Additions(before, after), Sections(before)) == Some(Sections(after))
  {
    DeletionsHeard(before, after, |before|);
    AdditionsHeard(before, after, |after|);
    assert before[..|before|] == before && after[..|after|] == after && before[|before|..] == [];
    assert Kept(before, after) + Sections([]) == Kept(before, after);
    ListenConcat(Deletions(before, after), Additions(before, after), Sections(before));
    forall s | s in Kept(before, after) ensures s in Sections(after) {
      KeptInNew(before, after, |after|, s);
    }
    assert Kept(before, after) + Sections(after) == Sections(after);
  }

  // ---------------------------------------------------------------- logging listeners

  /**
    A listener that keeps the set of sections it logs writes to. It forgets a section that goes; it insists on starting
    only what it does not log and on stopping only what it does.
   */
  ghost function ListenLog(events: seq<Event>, logged: set<MemorySection>): Option<set<MemorySection>>
  {
    if events == [] then Some(logged)
    else
      var s := events[0].section;
      match events[0]
      case RegionDel(_) => ListenLog(events[1..], logged - {s})
      case LogStart(_) => if s in logged then None else ListenLog(events[1..], logged + {s})
      case LogStop(_) => if s in logged then ListenLog(events[1..], logged - {s}) else None
      case _ => ListenLog(events[1..], logged)
  }

  lemma {:induction false} ListenLogConcat(xs: seq<Event>, ys: seq<Event>, logged: set<MemorySection>)
    requires ListenLog(xs, logged).Some?
    ensures ListenLog(xs + ys, logged) == ListenLog(ys, ListenLog(xs, logged).value)
  {
    if xs == [] {
      assert xs + ys == ys;
    } else {
      assert (xs + ys)[1..] == xs[1..] + ys;
      var s := xs[0].section;
      match xs[0]
      case RegionDel(_) => ListenLogConcat(xs[1..], ys, logged - {s});
      case LogStart(_) => ListenLogConcat(xs[1..], ys, logged + {s});
      case LogStop(_) => ListenLogConcat(xs[1..], ys, logged - {s});
      case _ => ListenLogConcat(xs[1..], ys, logged);
    }
  }

  /** The sections of the view that are to be logged. */
  function Logged(view: seq<FlatRange>): set<MemorySection>
  {
    set i | 0 <= i < |view| && view[i].logMask != 0 :: SectionOf(view[i])
  }

  /** Of these, the ones that the other view has too, logged there or not. */
  function LoggedShared(view: seq<FlatRange>, other: seq<FlatRange>): set<MemorySection>
  {
    set i | 0 <= i < |view| && view[i].logMask != 0 && Matched(view[i], other) :: SectionOf(view[i])
  }

  /** What is logged once the first `n` old ranges have been dealt with by the first pass. */
  function LoggedLeft(before: seq<FlatRange>, after: seq<FlatRange>, n: nat): set<MemorySection>
  {
    set i | 0 <= i < |before| && before[i].logMask != 0 && (n <= i || Matched(before[i], after)) :: SectionOf(before[i])
  }

  lemma {:induction false} DeletionsLogged(before: seq<FlatRange>, after: seq<FlatRange>, n: nat)
    requires WellFormed(before) && n <= |before|
    ensures ListenLog(Deletions(before[..n], after), Logged(before)) == Some(LoggedLeft(before, after, n))
  {
    if n == 0 {
      assert before[..0] == [] && LoggedLeft(before, after, 0) == Logged(before);
    } else {
      DeletionsLogged(before, after, n - 1);
      LeftNext(before, after, n);
      assert before[..n][..n - 1] == before[..n - 1];
      var e := RegionDel(SectionOf(before[n - 1]));
      hide LoggedLeft, Logged, WellFormed, Matched;
      if Matched(before[n - 1], after) {
        assert Deletions(before[..n], after) == Deletions(before[..n - 1], after);
      } else {
        ListenLogConcat(Deletions(before[..n - 1], after), [e], Logged(before));
        assert [e][1..] == [];
      }
    }
  }

  lemma LeftNext(before: seq<FlatRange>, after: seq<FlatRange>, n: nat)
    requires WellFormed(before) && 0 < n <= |before|
    ensures LoggedLeft(before, after, n) ==
            if Matched(before[n - 1], after) then LoggedLeft(before, after, n - 1)
            else LoggedLeft(before, after, n - 1) - {SectionOf(before[n - 1])}
  {
    OwnSection(before, n - 1);
    hide WellFormed;
  }

  /** What is logged once the second pass has come to new range `n`. */
  function LoggedSoFar(before: seq<FlatRange>, after: seq<FlatRange>, n: nat): set<MemorySection>
  {
    set j | 0 <= j < |after| && Matched(after[j], before) && LoggedNow(after[j], before, j < n) :: SectionOf(after[j])
  }

  predicate LoggedNow(fr: FlatRange, before: seq<FlatRange>, done: bool)
  {
    if done then fr.logMask != 0 else MatchedLogged(fr, before, true)
  }

  /** Where the first pass ends the second begins. */
  lemma LoggedHandover(before: seq<FlatRange>, after: seq<FlatRange>)
    ensures LoggedLeft(before, after, |before|) == LoggedSoFar(before, after, 0) == LoggedShared(before, after)
    ensures LoggedSoFar(before, after, |after|) == LoggedShared(after, before)
  {
    forall s | s in LoggedLeft(before, after, |before|) ensures s in LoggedSoFar(before, after, 0) {
      var i :| 0 <= i < |before| && before[i].logMask != 0 && Matched(before[i], after) && s == SectionOf(before[i]);
      var j :| 0 <= j < |after| && Equal(before[i], after[j]);
      assert Equal(after[j], before[i]);
    }
    forall s | s in LoggedSoFar(before, after, 0) ensures s in LoggedShared(before, after) {
      var j :| 0 <= j < |after| && Matched(after[j], before) && LoggedNow(after[j], before, j < 0)
               && s == SectionOf(after[j]);
      var i :| 0 <= i < |before| && Equal(after[j], before[i]) && (before[i].logMask != 0) == true;
      assert Equal(before[i], after[j]);
    }
  }

  /** A range of one view equals at most one of the other. */
  lemma OneMatch(fr: FlatRange, view: seq<FlatRange>)
    requires WellFormed(view) && Matched(fr, view)
    ensures MatchedLogged(fr, view, true) <==> !MatchedLogged(fr, view, false)
  {
    var i :| 0 <= i < |view| && Equal(fr, view[i]);
    assert MatchedLogged(fr, view, view[i].logMask != 0);
    forall k | 0 <= k < |view| && Equal(fr, view[k]) ensures k == i {
      if k < i { Sorted(view, k, i); }
      if i < k { Sorted(view, i, k); }
    }
  }

  lemma SoFarNext(before: seq<FlatRange>, after: seq<FlatRange>, n: nat)
    requires WellFormed(before) && WellFormed(after) && n < |after|
    ensures ListenLog(Addition(after[n], before), LoggedSoFar(before, after, n))
         == Some(LoggedSoFar(before, after, n + 1))
  {
    var fr, now := after[n], LoggedSoFar(before, after, n);
    var log, s := LogChange(fr, before), SectionOf(fr);
    OwnSection(after, n);
    SoFarChange(before, after, n);
    if Matched(fr, before) {
      OneMatch(fr, before);
      hide LoggedSoFar, WellFormed, Matched, MatchedLogged;
      assert ([RegionNop(s)] + log)[1..] == log;
      if log == [] {
        assert LoggedSoFar(before, after, n + 1) == now;
      } else {
        ListenLogOne(log, now);
      }
    } else {
      hide LoggedSoFar, WellFormed, Matched, MatchedLogged;
      ListenLogOne([RegionAdd(s)], now);
    }
  }

  lemma ListenLogOne(events: seq<Event>, logged: set<MemorySection>)
    requires |events| == 1
    ensures var s := events[0].section;
            ListenLog(events, logged) ==
            match events[0]
            case RegionDel(_) => Some(logged - {s})
            case LogStart(_) => if s in logged then None else Some(logged + {s})
            case LogStop(_) => if s in logged then Some(logged - {s}) else None
            case _ => Some(logged)
  {
    assert events[1..] == [];
  }

  lemma SoFarChange(before: seq<FlatRange>, after: seq<FlatRange>, n: nat)
    requires WellFormed(after) && n < |after|
    ensures var fr, now, next := after[n], LoggedSoFar(before, after, n), LoggedSoFar(before, after, n + 1);
            var s := SectionOf(fr);
            && (s in now <==> Matched(fr, before) && MatchedLogged(fr, before, true))
            && next == (if Matched(fr, before) && fr.logMask != 0 then now + {s} else now - {s})
            && (!Matched(fr, before) ==> next == now)
  {
    OwnSection(after, n);
    hide WellFormed, Matched, MatchedLogged;
  }

  lemma {:induction false} AdditionsLogged(before: seq<FlatRange>, after: seq<FlatRange>, n: nat)
    requires WellFormed(before) && WellFormed(after) && n <= |after|
    ensures ListenLog(Additions(before, after[..n]), LoggedSoFar(before, after, 0))
         == Some(LoggedSoFar(before, after, n))
  {
    hide LoggedSoFar, WellFormed, Addition;
    if n == 0 {
      assert after[..0] == [];
    } else {
      AdditionsLogged(before, after, n - 1);
      assert after[..n][..n - 1] == after[..n - 1];
      var start := LoggedSoFar(before, after, 0);
      ListenLogConcat(Additions(before, after[..n - 1]), Addition(after[n - 1], before), start);
      SoFarNext(before, after, n - 1);
    }
  }

  /**
    A listener that logs exactly what the old view asks for logs, after both passes, of the ranges that stay exactly
    those the new view asks for. It is never told to start what it logs, or to stop what it does not.
   */
  lemma PassesLogged(before: seq<FlatRange>, after: seq<FlatRange>)
    requires WellFormed(before) && WellFormed(after)
    ensures ListenLog(Deletions(before, after) + Additions(before, after), Logged(before))
         == Some(LoggedShared(after, before))
  {
    assert before[..|before|] == before && after[..|after|] == after;
    DeletionsLogged(before, after, |before|);
    LoggedHandover(before, after);
    AdditionsLogged(before, after, |after|);
    hide Deletions, Additions, LoggedLeft, LoggedSoFar, LoggedShared, Logged;
    ListenLogConcat(Deletions(before, after), Additions(before, after), Logged(before));
  }

  // ---------------------------------------------------------------- what counts as the same range

  /** The two ranges are of the same region, at the same place, with the same offset and modes. */
  predicate SameRange(a: FlatRange, b: FlatRange)
  {
    SectionOf(a) == SectionOf(b) && a.romdMode == b.romdMode
  }

  /** An old range is told to go exactly when the new view has no such range; logging does not matter. */
  lemma {:induction false} DeletedExactly(before: seq<FlatRange>, after: seq<FlatRange>, i: nat)
    requires WellFormed(before) && i < |before|
    ensures RegionDel(SectionOf(before[i])) in Deletions(before, after) <==>
            !exists j :: 0 <= j < |after| && SameRange(before[i], after[j])
    decreases |before|
  {
    var n := |before| - 1;
    MatchedIs(before[i], after);
    OwnSection(before, i);
    hide Matched, SectionOf;
    if i < n {
      assert before[..n][i] == before[i];
      DeletedExactly(before[..n], after, i);
    } else {
      DeletionsFrom(before[..n], after, RegionDel(SectionOf(before[i])));
    }
  }

  lemma MatchedIs(fr: FlatRange, view: seq<FlatRange>)
    ensures Matched(fr, view) <==> exists j :: 0 <= j < |view| && SameRange(fr, view[j])
  {
    if Matched(fr, view) {
      var j :| 0 <= j < |view| && Equal(fr, view[j]);
      assert SameRange(fr, view[j]);
    }
    if j :| 0 <= j < |view| && SameRange(fr, view[j]) {
      assert Equal(fr, view[j]);
    }
  }

  lemma {:induction false} DeletionsFrom(before: seq<FlatRange>, after: seq<FlatRange>, e: Event)
    ensures e in Deletions(before, after) ==> exists k :: 0 <= k < |before| && e == RegionDel(SectionOf(before[k]))
    decreases |before|
  {
    hide Matched, SectionOf;
    if before != [] {
      var n := |before| - 1;
      DeletionsFrom(before[..n], after, e);
      if k :| 0 <= k < n && e == RegionDel(SectionOf(before[..n][k])) {
        assert before[..n][k] == before[k];
      }
    }
  }

  // ---------------------------------------------------------------- rebuilding listeners

  /** The sections a listener receives that treats region_add and region_nop alike and ignores the rest. */
  function Received(events: seq<Event>): seq<MemorySection>
  {
    if events == [] then []
    else
      (if events[0].RegionAdd? || events[0].RegionNop? then [events[0].section] else []) + Received(events[1..])
  }

  lemma {:induction false} ReceivedConcat(xs: seq<Event>, ys: seq<Event>)
    ensures Received(xs + ys) == Received(xs) + Received(ys)
  {
    if xs == [] {
      assert xs + ys == ys;
    } else {
      assert (xs + ys)[1..] == xs[1..] + ys && (xs + ys)[0] == xs[0];
      ReceivedConcat(xs[1..], ys);
      var head := if xs[0].RegionAdd? || xs[0].RegionNop? then [xs[0].section] else [];
      assert Received(xs + ys) == head + (Received(xs[1..]) + Received(ys));
      assert Received(xs) == head + Received(xs[1..]);
    }
  }

  lemma {:induction false} NothingReceived(before: seq<FlatRange>, after: seq<FlatRange>)
    ensures Received(Deletions(before, after)) == []
    decreases |before|
  {
    if before != [] {
      var n := |before| - 1;
      NothingReceived(before[..n], after);
      var d := if Matched(before[n], after) then [] else [RegionDel(SectionOf(before[n]))];
      ReceivedConcat(Deletions(before[..n], after), d);
      assert Received(d) == [] by { if d != [] { assert d[1..] == []; } }
    }
  }

  lemma AdditionReceived(fr: FlatRange, before: seq<FlatRange>)
    ensures Received(Addition(fr, before)) == [SectionOf(fr)]
  {
    if Matched(fr, before) {
      var log := LogChange(fr, before);
      ReceivedConcat([RegionNop(SectionOf(fr))], log);
      assert [RegionNop(SectionOf(fr))][1..] == [];
      if log != [] { assert log[1..] == []; }
    } else {
      assert [RegionAdd(SectionOf(fr))][1..] == [];
    }
  }

  lemma {:induction false} AdditionsReceived(before: seq<FlatRange>, after: seq<FlatRange>)
    ensures Received(Additions(before, after)) == seq(|after|, i requires 0 <= i < |after| => SectionOf(after[i]))
    decreases |after|
  {
    if after != [] {
      var n := |after| - 1;
      AdditionsReceived(before, after[..n]);
      ReceivedConcat(Additions(before, after[..n]), Addition(after[n], before));
      AdditionReceived(after[n], before);
    }
  }

  /** A listener that rebuilds its state from scratch receives the whole new view, in address order. */
  lemma PassesReceived(before: seq<FlatRange>, after: seq<FlatRange>)
    ensures Received(Deletions(before, after) + Additions(before, after))
            == seq(|after|, i requires 0 <= i < |after| => SectionOf(after[i]))
  {
    ReceivedConcat(Deletions(before, after), Additions(before, after));
    NothingReceived(before, after);
    AdditionsReceived(before, after);
  }
}
