/**
  Serialisation of copy-on-read requests in block.c: `tracked_request_*`,
  `bdrv_round_to_clusters`, `wait_for_overlapping_requests`,
  `bdrv_co_do_copy_on_readv` and the request paths of `bdrv_co_do_readv` and
  `bdrv_co_do_writev`.

  Requests run as coroutines that give up control only at waits and while a
  driver call is in progress.  The model is a state machine whose steps are the
  stretches of code between two such points; a driver call takes one step per
  sector, in any order, so other requests may run in the middle of it.  A step may
  belong to any request that is able to run.
 */
module CopyOnRead {
  import opened Common
  import opened Arithmetic

  type Id = nat
  type Sector = nat
  type Data = int

  type ClusterSize = n: nat | 1 <= n witness 1

  /** Sectors per cluster; 1 for a driver that reports no cluster size. */
  const CLUSTER: ClusterSize

  function Cluster(s: Sector): nat { s / CLUSTER }

  // ---------------------------------------------------------------- ranges

  datatype Range = Range(sector: Sector, nb: nat) {
    predicate Contains(s: int) { sector <= s < sector + nb }

    /** The range has a sector in cluster `c`. */
    ghost predicate Touches(c: nat) { exists s: Sector :: Contains(s) && Cluster(s) == c }
  }

  /** bdrv_round_to_clusters. */
  function RoundToClusters(r: Range): Range
  {
    var first := Cluster(r.sector) * CLUSTER;
    Range(first, (r.sector - first + r.nb + CLUSTER - 1) / CLUSTER * CLUSTER)
  }

  /** tracked_request_overlaps. */
  predicate Overlaps(req: Range, r: Range)
  {
    !(r.sector >= req.sector + req.nb) && !(req.sector >= r.sector + r.nb)
  }

  /** The rounded range is made of exactly the clusters the range touches. */
  lemma RoundedContains(r: Range, s: Sector)
    requires 0 < r.nb
    ensures RoundToClusters(r).Contains(s) <==> Cluster(r.sector) <= Cluster(s) <= Cluster(r.sector + r.nb - 1)
  {
    var first, last := Cluster(r.sector), Cluster(r.sector + r.nb - 1);
    var lo, end := first * CLUSTER, r.sector + r.nb;
    var n := end - lo;
    // the rounded end is the end of the last cluster
    var q := (n + CLUSTER - 1) / CLUSTER;
    assert r.sector == lo + r.sector % CLUSTER;
    var x := (end - 1) % CLUSTER;
    assert end - 1 == last * CLUSTER + x;
    MulDistribute(last - first, 1, CLUSTER);
    MulDistribute(last, -first, CLUSTER);
    Quotient(n + CLUSTER - 1, CLUSTER, last - first + 1, x);
    assert q == last - first + 1;
    MulDistribute(first, q, CLUSTER);
    assert lo + q * CLUSTER == (last + 1) * CLUSTER;
    ClusterBounds(s, first);
    ClusterBounds(s, last + 1);
  }

  lemma ClusterBounds(s: Sector, c: nat)
    ensures c <= Cluster(s) <==> c * CLUSTER <= s
  {
    var q, r := Cluster(s), s % CLUSTER;
    assert s == q * CLUSTER + r;
    if c <= q { MulMonotone(c, q, CLUSTER); } else {
      MulMonotone(q + 1, c, CLUSTER);
      MulDistribute(q, 1, CLUSTER);
    }
  }

  lemma TouchesBetween(r: Range, c: nat)
    requires 0 < r.nb
    ensures r.Touches(c) <==> Cluster(r.sector) <= c <= Cluster(r.sector + r.nb - 1)
  {
    if r.Touches(c) {
      var s: Sector :| r.Contains(s) && Cluster(s) == c;
      ClusterMonotone(r.sector, s);
      ClusterMonotone(s, r.sector + r.nb - 1);
    }
    if Cluster(r.sector) <= c <= Cluster(r.sector + r.nb - 1) {
      var s := if c == Cluster(r.sector) then r.sector else c * CLUSTER;
      if c != Cluster(r.sector) {
        Quotient(s, CLUSTER, c, 0);
        ClusterBounds(r.sector, c);
        ClusterBounds(r.sector + r.nb - 1, c);
      }
      assert r.Contains(s) && Cluster(s) == c;
    }
  }

  lemma ClusterMonotone(s: Sector, t: Sector)
    requires s <= t
    ensures Cluster(s) <= Cluster(t)
  {
    ClusterBounds(s, Cluster(s));
    ClusterBounds(t, Cluster(s));
  }

  /** Two requests touch a common cluster. */
  ghost predicate Share(a: Range, b: Range)
  {
    exists c :: a.Touches(c) && b.Touches(c)
  }

  /** The overlap test against the rounded range is the test for a common cluster. */
  lemma OverlapIsSharing(a: Range, b: Range)
    requires 0 < a.nb && 0 < b.nb
    ensures Overlaps(a, RoundToClusters(b)) <==> Share(a, b)
  {
    var r := RoundToClusters(b);
    if Share(a, b) {
      var c :| a.Touches(c) && b.Touches(c);
      var s: Sector :| a.Contains(s) && Cluster(s) == c;
      TouchesBetween(b, c);
      RoundedContains(b, s);
      assert r.Contains(s);
    }
    if Overlaps(a, r) {
      RoundedContains(b, b.sector);
      ClusterMonotone(b.sector, b.sector + b.nb - 1);
      var s: Sector := Max(a.sector, r.sector);
      assert a.Contains(s) && r.Contains(s);
      RoundedContains(b, s);
      TouchesBetween(b, Cluster(s));
      assert a.Touches(Cluster(s)) && b.Touches(Cluster(s));
    }
  }

  lemma ShareSym(a: Range, b: Range)
    ensures Share(a, b) == Share(b, a)
  {
  }

  lemma RoundedTouches(r: Range, s: Sector)
    requires 0 < r.nb && RoundToClusters(r).Contains(s)
    ensures r.Touches(Cluster(s))
  {
    RoundedContains(r, s);
    TouchesBetween(r, Cluster(s));
  }

  // ---------------------------------------------------------------- the image

  /** A driver's image over a backing file: clusters are allocated as a whole when one of their sectors is written. */
  datatype Image = Image(clusters: set<nat>, own: Sector -> Data, backing: Sector -> Data) {

    /** What a read of the sector returns. */
    function Visible(s: Sector): Data
    {
      if Cluster(s) in clusters then own(s) else backing(s)
    }

    function Write(s: Sector, d: Data): Image
    {
      var isNew := Cluster(s) !in clusters;
      Image(clusters + {Cluster(s)},
            (t: Sector) => if t == s then d else if isNew && Cluster(t) == Cluster(s) then backing(t) else own(t),
            backing)
    }
  }

  lemma WriteVisible(i: Image, s: Sector, d: Data)
    ensures forall t: Sector :: i.Write(s, d).Visible(t) == if t == s then d else i.Visible(t)
  {
  }

  // ---------------------------------------------------------------- requests

  datatype Kind = Read | CopyOnRead | Write

  datatype Phase =
    | Woken                             // about to scan the tracked requests again
    | Waiting(on: Id)                   // queued on a tracked request
    | Deciding                          // copy-on-read: asking whether the sectors are allocated
    | Fetching(todo: set<Sector>)       // copy-on-read: filling the bounce buffer
    | Storing(todo: set<Sector>)        // copy-on-read: writing the bounce buffer back
    | Transferring(todo: set<Sector>)   // plain driver read or write

  datatype Req = Req(kind: Kind, range: Range, phase: Phase, bounce: map<Sector, Data>) {
    /** Between tracked_request_begin and tracked_request_end. */
    predicate Tracked() { !phase.Woken? && !phase.Waiting? }

    /** All driver calls are done. */
    predicate Finished() { (phase.Storing? || phase.Transferring?) && phase.todo == {} }
  }

  /** `guest` is what the guest's writes alone would have left on the disk. */
  datatype State = State(reqs: map<Id, Req>, inFlight: nat, image: Image, guest: Sector -> Data)

  function Sectors(r: Range): set<Sector>
  {
    set s: Sector | r.sector <= s < r.sector + r.nb && r.Contains(s)
  }

  /** The request after tracked_request_begin. */
  function Begun(kind: Kind, range: Range): Req
  {
    Req(kind, range, if kind.CopyOnRead? then Deciding else Transferring(Sectors(range)), map[])
  }

  function InFlightAfter(st: State, kind: Kind): nat
  {
    if kind.CopyOnRead? then st.inFlight + 1 else st.inFlight
  }

  /** `t` is a tracked request the scan for `range` stops at. */
  predicate Blocks(st: State, t: Id, range: Range)
  {
    t in st.reqs && st.reqs[t].Tracked() && Overlaps(st.reqs[t].range, RoundToClusters(range))
  }

  /** The outcome of a scan: the first blocking request found, or none. */
  ghost predicate ScanFinds(st: State, range: Range, blocker: Option<Id>)
  {
    if blocker.Some? then Blocks(st, blocker.value, range) else forall t :: !Blocks(st, t, range)
  }

  datatype Action =
    | Arrive(id: Id, kind: Kind, range: Range, blocker: Option<Id>)
    | Retry(id: Id, blocker: Option<Id>)
    | Decide(id: Id)
    | Fetch(id: Id, s: Sector)
    | Fetched(id: Id)
    | Store(id: Id, s: Sector)
    | GuestRead(id: Id, s: Sector, d: Data)
    | GuestWrite(id: Id, s: Sector, d: Data)
    | End(id: Id)   // finished; a copy-on-read hands the guest its sectors of the bounce buffer
    | Fail(id: Id)  // stopped early by a driver error

  ghost predicate Enabled(st: State, a: Action)
  {
    match a
    case Arrive(id, kind, range, blocker) =>
      && id !in st.reqs && 0 < range.nb
      // the scan is skipped when no copy-on-read is in flight
      && if InFlightAfter(st, kind) == 0 then blocker.None? else ScanFinds(st, range, blocker)
    case Retry(id, blocker) =>
      id in st.reqs && st.reqs[id].phase.Woken? && ScanFinds(st, st.reqs[id].range, blocker)
    case Decide(id) => id in st.reqs && st.reqs[id].phase.Deciding?
    case Fetch(id, s) => id in st.reqs && st.reqs[id].phase.Fetching? && s in st.reqs[id].phase.todo
    case Fetched(id) => id in st.reqs && st.reqs[id].phase.Fetching? && st.reqs[id].phase.todo == {}
    case Store(id, s) =>
      id in st.reqs && st.reqs[id].phase.Storing? && s in st.reqs[id].phase.todo && s in st.reqs[id].bounce
    case GuestRead(id, s, d) =>
      && id in st.reqs && st.reqs[id].phase.Transferring? && s in st.reqs[id].phase.todo && !st.reqs[id].kind.Write?
      && d == st.image.Visible(s)
    case GuestWrite(id, s, _) =>
      id in st.reqs && st.reqs[id].phase.Transferring? && s in st.reqs[id].phase.todo && st.reqs[id].kind.Write?
    case End(id) => id in st.reqs && st.reqs[id].Finished()
    case Fail(id) => id in st.reqs && st.reqs[id].Tracked()
  }

  /** tracked_request_end restarts the queue of the request. */
  function Woke(r: Req, ended: Id): Req
  {
    if r.phase == Waiting(ended) then r.(phase := Woken) else r
  }

  function WithPhase(st: State, id: Id, phase: Phase): State
    requires id in st.reqs
  {
    st.(reqs := st.reqs[id := st.reqs[id].(phase := phase)])
  }

  /** tracked_request_end. */
  function Removed(st: State, id: Id): State
    requires id in st.reqs
  {
    st.(reqs := map x | x in st.reqs && x != id :: Woke(st.reqs[x], id),
        inFlight := if st.reqs[id].kind.CopyOnRead? && st.inFlight > 0 then st.inFlight - 1 else st.inFlight)
  }

  function AllAllocated(i: Image, r: Range): bool
  {
    forall s :: s in Sectors(r) ==> Cluster(s) in i.clusters
  }

  ghost function Apply(st: State, a: Action): State
    requires Enabled(st, a)
  {
    match a
    case Arrive(id, kind, range, blocker) =>
      var r := Begun(kind, range);
      st.(reqs := st.reqs[id := if blocker.Some? then r.(phase := Waiting(blocker.value)) else r],
          inFlight := InFlightAfter(st, kind))
    case Retry(id, blocker) =>
      var r := st.reqs[id];
      WithPhase(st, id, if blocker.Some? then Waiting(blocker.value) else Begun(r.kind, r.range).phase)
    case Decide(id) =>
      var r := st.reqs[id].range;
      WithPhase(st, id,
                if AllAllocated(st.image, r) then Transferring(Sectors(r)) else Fetching(Sectors(RoundToClusters(r))))
    case Fetch(id, s) =>
      var r := st.reqs[id];
      st.(reqs :=
            st.reqs[id := r.(phase := Fetching(r.phase.todo - {s}), bounce := r.bounce[s := st.image.Visible(s)])])
    case Fetched(id) => WithPhase(st, id, Storing(Sectors(RoundToClusters(st.reqs[id].range))))
    case Store(id, s) =>
      var r := st.reqs[id];
      WithPhase(st.(image := st.image.Write(s, r.bounce[s])), id, Storing(r.phase.todo - {s}))
    case GuestRead(id, s, _) => WithPhase(st, id, Transferring(st.reqs[id].phase.todo - {s}))
    case GuestWrite(id, s, d) =>
      WithPhase(st.(image := st.image.Write(s, d), guest := (t: Sector) => if t == s then d else st.guest(t)), id,
                Transferring(st.reqs[id].phase.todo - {s}))
    case End(id) => Removed(st, id)
    case Fail(id) => Removed(st, id)
  }

  // ---------------------------------------------------------------- the invariant

  function CopyOnReads(reqs: map<Id, Req>): set<Id>
  {
    set id | id in reqs && reqs[id].kind.CopyOnRead?
  }

  predicate Guards(a: Req, b: Req) { a.Tracked() && b.Tracked() && a.kind.CopyOnRead? }

  /** Two tracked requests share a cluster only if neither is copy-on-read. */
  ghost predicate Exclusive(st: State)
  {
    forall a, b :: a in st.reqs && b in st.reqs && a != b && Guards(st.reqs[a], st.reqs[b]) ==>
      !Share(st.reqs[a].range, st.reqs[b].range)
  }

  /** The shape of one request. */
  ghost predicate ReqOk(st: State, id: Id)
    requires id in st.reqs
  {
    var r := st.reqs[id];
    && 0 < r.range.nb
    && (r.phase.Deciding? || r.phase.Fetching? || r.phase.Storing? ==> r.kind.CopyOnRead?)
    && (r.phase.Fetching? || r.phase.Storing? ==> r.phase.todo <= Sectors(RoundToClusters(r.range)))
    && (r.phase.Transferring? ==> r.phase.todo <= Sectors(r.range))
    && (r.phase.Fetching? ==> r.bounce.Keys == Sectors(RoundToClusters(r.range)) - r.phase.todo)
    && (r.phase.Storing? ==> r.bounce.Keys == Sectors(RoundToClusters(r.range)))
    && (r.phase.Deciding? || r.phase.Woken? || r.phase.Waiting? ==> r.bounce == map[])
    && (r.phase.Waiting? ==> r.phase.on in st.reqs && st.reqs[r.phase.on].Tracked())
  }

  /** A copy-on-read's bounce buffer holds what the disk shows, from the moment it is filled. */
  ghost predicate BounceFresh(st: State, id: Id)
    requires id in st.reqs
  {
    var r := st.reqs[id];
    r.phase.Fetching? || r.phase.Storing? ==> forall s :: s in r.bounce ==> r.bounce[s] == st.image.Visible(s)
  }

  ghost predicate Inv(st: State)
  {
    && st.inFlight == |CopyOnReads(st.reqs)|
    && Exclusive(st)
    && (forall id :: id in st.reqs ==> ReqOk(st, id) && BounceFresh(st, id))
    && (forall s: Sector :: st.image.Visible(s) == st.guest(s))
  }

  /** No request yet; the guest sees what the image shows. */
  ghost predicate Init(st: State)
  {
    st.reqs == map[] && st.inFlight == 0 && forall s: Sector :: st.image.Visible(s) == st.guest(s)
  }

  lemma InitInv(st: State)
    requires Init(st)
    ensures Inv(st)
  {
    assert CopyOnReads(st.reqs) == {};
  }

  // ---------------------------------------------------------------- steps inside a tracked request

  /** `st2` differs from `st` in the phase and bounce buffer of tracked request `id`, which stays tracked. */
  ghost predicate LocalChange(st: State, st2: State, id: Id)
  {
    && id in st.reqs && id in st2.reqs
    && st2.reqs == st.reqs[id := st2.reqs[id]]
    && st2.reqs[id].kind == st.reqs[id].kind && st2.reqs[id].range == st.reqs[id].range
    && st.reqs[id].Tracked() && st2.reqs[id].Tracked()
    && st2.inFlight == st.inFlight
  }

  lemma LocalKeeps(st: State, st2: State, id: Id)
    requires Inv(st) && LocalChange(st, st2, id)
    ensures st2.inFlight == |CopyOnReads(st2.reqs)| && Exclusive(st2)
    ensures forall j :: j in st2.reqs && j != id ==> ReqOk(st2, j)
  {
    assert CopyOnReads(st2.reqs) == CopyOnReads(st.reqs);
    forall a, b | a in st2.reqs && b in st2.reqs && a != b && Guards(st2.reqs[a], st2.reqs[b])
      ensures !Share(st2.reqs[a].range, st2.reqs[b].range)
    {
      assert Guards(st.reqs[a], st.reqs[b]);
    }
    forall j | j in st2.reqs && j != id ensures ReqOk(st2, j) {
      assert ReqOk(st, j);
    }
  }

  /** A local change that leaves the disk alone. */
  lemma LocalQuiet(st: State, st2: State, id: Id)
    requires Inv(st) && LocalChange(st, st2, id) && st2.image == st.image && st2.guest == st.guest
    requires ReqOk(st2, id) && BounceFresh(st2, id)
    ensures Inv(st2)
  {
    LocalKeeps(st, st2, id);
    forall j | j in st2.reqs ensures ReqOk(st2, j) && BounceFresh(st2, j) {
      assert ReqOk(st, j) && BounceFresh(st, j);
    }
  }

  lemma DecideInv(st: State, id: Id)
    requires Inv(st) && Enabled(st, Decide(id))
    ensures Inv(Apply(st, Decide(id)))
  {
    assert ReqOk(st, id);
    LocalQuiet(st, Apply(st, Decide(id)), id);
  }

  lemma FetchInv(st: State, id: Id, s: Sector)
    requires Inv(st) && Enabled(st, Fetch(id, s))
    ensures Inv(Apply(st, Fetch(id, s)))
  {
    assert ReqOk(st, id) && BounceFresh(st, id);
    LocalQuiet(st, Apply(st, Fetch(id, s)), id);
  }

  lemma FetchedInv(st: State, id: Id)
    requires Inv(st) && Enabled(st, Fetched(id))
    ensures Inv(Apply(st, Fetched(id)))
  {
    assert ReqOk(st, id) && BounceFresh(st, id);
    LocalQuiet(st, Apply(st, Fetched(id)), id);
  }

  lemma GuestReadInv(st: State, id: Id, s: Sector, d: Data)
    requires Inv(st) && Enabled(st, GuestRead(id, s, d))
    ensures Inv(Apply(st, GuestRead(id, s, d)))
  {
    assert ReqOk(st, id);
    LocalQuiet(st, Apply(st, GuestRead(id, s, d)), id);
  }

  /** Writing the bounce buffer back does not change what the disk shows. */
  lemma StoreInv(st: State, id: Id, s: Sector)
    requires Inv(st) && Enabled(st, Store(id, s))
    ensures Inv(Apply(st, Store(id, s)))
    ensures forall t: Sector :: Apply(st, Store(id, s)).image.Visible(t) == st.image.Visible(t)
  {
    var st2 := Apply(st, Store(id, s));
    assert ReqOk(st, id) && BounceFresh(st, id);
    WriteVisible(st.image, s, st.reqs[id].bounce[s]);
    LocalKeeps(st, st2, id);
    forall j | j in st2.reqs ensures ReqOk(st2, j) && BounceFresh(st2, j) {
      assert ReqOk(st, j) && BounceFresh(st, j);
    }
  }

  /** A sector a guest write touches is in no copy-on-read's bounce buffer. */
  lemma WriteAvoidsBounce(st: State, id: Id, s: Sector, j: Id)
    requires Inv(st) && id in st.reqs && j in st.reqs && j != id
    requires st.reqs[id].Tracked() && st.reqs[id].range.Contains(s)
    requires st.reqs[j].phase.Fetching? || st.reqs[j].phase.Storing?
    ensures s !in st.reqs[j].bounce
  {
    assert ReqOk(st, j);
    if s in st.reqs[j].bounce {
      assert s in Sectors(RoundToClusters(st.reqs[j].range));
      RoundedTouches(st.reqs[j].range, s);
      assert st.reqs[id].range.Touches(Cluster(s));
      assert Share(st.reqs[j].range, st.reqs[id].range);
      assert Guards(st.reqs[j], st.reqs[id]);
    }
  }

  lemma GuestWriteInv(st: State, id: Id, s: Sector, d: Data)
    requires Inv(st) && Enabled(st, GuestWrite(id, s, d))
    ensures Inv(Apply(st, GuestWrite(id, s, d)))
  {
    var st2 := Apply(st, GuestWrite(id, s, d));
    assert ReqOk(st, id);
    WriteVisible(st.image, s, d);
    LocalKeeps(st, st2, id);
    forall j | j in st2.reqs ensures ReqOk(st2, j) && BounceFresh(st2, j) {
      assert ReqOk(st, j) && BounceFresh(st, j);
      if j != id && (st.reqs[j].phase.Fetching? || st.reqs[j].phase.Storing?) {
        assert s in Sectors(st.reqs[id].range);
        WriteAvoidsBounce(st, id, s, j);
      }
    }
  }

  // ---------------------------------------------------------------- entering and leaving

  /** A scan that finds nothing means no tracked request shares a cluster with the range. */
  lemma ScanClear(st: State, range: Range, t: Id)
    requires (forall x :: !Blocks(st, x, range)) && t in st.reqs && st.reqs[t].Tracked()
    requires 0 < range.nb && 0 < st.reqs[t].range.nb
    ensures !Share(range, st.reqs[t].range) && !Share(st.reqs[t].range, range)
  {
    assert !Blocks(st, t, range);
    OverlapIsSharing(st.reqs[t].range, range);
    ShareSym(range, st.reqs[t].range);
  }

  /** A request becomes tracked: after a clear scan, or unscanned while no copy-on-read exists. */
  lemma TrackedExclusive(st: State, st2: State, id: Id, scanned: bool)
    requires Inv(st) && id in st2.reqs && st2.reqs == st.reqs[id := st2.reqs[id]] && 0 < st2.reqs[id].range.nb
    requires id in st.reqs ==> !st.reqs[id].Tracked()
    requires if scanned then forall x :: !Blocks(st, x, st2.reqs[id].range)
             else CopyOnReads(st.reqs) == {} && !st2.reqs[id].kind.CopyOnRead?
    ensures Exclusive(st2)
  {
    forall a, b | a in st2.reqs && b in st2.reqs && a != b
      ensures Guards(st2.reqs[a], st2.reqs[b]) ==> !Share(st2.reqs[a].range, st2.reqs[b].range)
    {
      if a != id && b != id {
        assert Guards(st2.reqs[a], st2.reqs[b]) == Guards(st.reqs[a], st.reqs[b]);
      } else if scanned {
        if Guards(st2.reqs[a], st2.reqs[b]) {
          var t := if a == id then b else a;
          assert ReqOk(st, t);
          ScanClear(st, st2.reqs[id].range, t);
        }
      } else {
        assert a != id && st.reqs[a].kind.CopyOnRead? ==> a in CopyOnReads(st.reqs);
      }
    }
  }

  /** A request that queues leaves the tracked ones as they are. */
  lemma WaitingExclusive(st: State, st2: State, id: Id)
    requires Inv(st) && id in st2.reqs && st2.reqs == st.reqs[id := st2.reqs[id]] && !st2.reqs[id].Tracked()
    ensures Exclusive(st2)
  {
    forall a, b | a in st2.reqs && b in st2.reqs && a != b && Guards(st2.reqs[a], st2.reqs[b])
      ensures !Share(st2.reqs[a].range, st2.reqs[b].range)
    {
      assert Guards(st.reqs[a], st.reqs[b]);
    }
  }

  /** Requests other than an untracked `id` are not affected by what becomes of it. */
  lemma OthersOk(st: State, st2: State, id: Id, j: Id)
    requires Inv(st) && id in st2.reqs && st2.reqs == st.reqs[id := st2.reqs[id]] && st2.image == st.image
    requires (id in st.reqs ==> !st.reqs[id].Tracked()) && j in st.reqs && j != id
    ensures ReqOk(st2, j) && BounceFresh(st2, j)
  {
    assert ReqOk(st, j) && BounceFresh(st, j);
  }

  lemma ArriveInv(st: State, id: Id, kind: Kind, range: Range, blocker: Option<Id>)
    requires Inv(st) && Enabled(st, Arrive(id, kind, range, blocker))
    ensures Inv(Apply(st, Arrive(id, kind, range, blocker)))
  {
    var st2 := Apply(st, Arrive(id, kind, range, blocker));
    ArriveCount(st.reqs, id, st2.reqs[id]);
    if blocker.Some? {
      WaitingExclusive(st, st2, id);
    } else {
      TrackedExclusive(st, st2, id, InFlightAfter(st, kind) != 0);
    }
    ArriveOk(st, id, kind, range, blocker);
    hide Exclusive, ReqOk, BounceFresh, CopyOnReads;
    forall j | j in st2.reqs ensures ReqOk(st2, j) && BounceFresh(st2, j) {
      if j != id { OthersOk(st, st2, id, j); }
    }
  }

  lemma ArriveCount(reqs: map<Id, Req>, id: Id, r: Req)
    requires id !in reqs
    ensures |CopyOnReads(reqs[id := r])| == |CopyOnReads(reqs)| + if r.kind.CopyOnRead? then 1 else 0
  {
    assert CopyOnReads(reqs[id := r]) == CopyOnReads(reqs) + if r.kind.CopyOnRead? then {id} else {};
  }

  lemma ArriveOk(st: State, id: Id, kind: Kind, range: Range, blocker: Option<Id>)
    requires Enabled(st, Arrive(id, kind, range, blocker))
    ensures ReqOk(Apply(st, Arrive(id, kind, range, blocker)), id)
    ensures BounceFresh(Apply(st, Arrive(id, kind, range, blocker)), id)
  {
  }

  lemma RetryInv(st: State, id: Id, blocker: Option<Id>)
    requires Inv(st) && Enabled(st, Retry(id, blocker))
    ensures Inv(Apply(st, Retry(id, blocker)))
  {
    var st2 := Apply(st, Retry(id, blocker));
    assert ReqOk(st, id);
    assert st2.reqs == st.reqs[id := st2.reqs[id]];
    assert CopyOnReads(st2.reqs) == CopyOnReads(st.reqs);
    if blocker.Some? {
      WaitingExclusive(st, st2, id);
    } else {
      TrackedExclusive(st, st2, id, true);
    }
    forall j | j in st2.reqs ensures ReqOk(st2, j) && BounceFresh(st2, j) {
      if j != id { OthersOk(st, st2, id, j); }
    }
  }

  /** A request ends, finished or not. */
  lemma EndInv(st: State, id: Id)
    requires Inv(st) && id in st.reqs && st.reqs[id].Tracked()
    ensures Inv(Removed(st, id))
  {
    var st2 := Removed(st, id);
    EndCount(st, id);
    EndExclusive(st, id);
    hide Exclusive, CopyOnReads;
    forall j | j in st2.reqs ensures ReqOk(st2, j) && BounceFresh(st2, j) {
      EndOther(st, id, j);
    }
  }

  lemma EndCount(st: State, id: Id)
    requires id in st.reqs
    ensures |CopyOnReads(Removed(st, id).reqs)|
         == |CopyOnReads(st.reqs)| - if st.reqs[id].kind.CopyOnRead? then 1 else 0
  {
    assert CopyOnReads(Removed(st, id).reqs) == CopyOnReads(st.reqs) - {id};
    assert st.reqs[id].kind.CopyOnRead? ==> id in CopyOnReads(st.reqs);
  }

  lemma EndExclusive(st: State, id: Id)
    requires Exclusive(st) && id in st.reqs
    ensures Exclusive(Removed(st, id))
  {
    var st2 := Removed(st, id);
    forall a, b | a in st2.reqs && b in st2.reqs && a != b && Guards(st2.reqs[a], st2.reqs[b])
      ensures !Share(st2.reqs[a].range, st2.reqs[b].range)
    {
      assert Guards(st.reqs[a], st.reqs[b]);
    }
  }

  lemma EndOther(st: State, id: Id, j: Id)
    requires id in st.reqs && st.reqs[id].Tracked() && j in st.reqs && j != id && ReqOk(st, j) && BounceFresh(st, j)
    ensures ReqOk(Removed(st, id), j) && BounceFresh(Removed(st, id), j)
  {
  }

  lemma StepInv(st: State, a: Action)
    requires Inv(st) && Enabled(st, a)
    ensures Inv(Apply(st, a))
  {
    hide Inv;
    match a
    case Arrive(id, kind, range, blocker) => ArriveInv(st, id, kind, range, blocker);
    case Retry(id, blocker) => RetryInv(st, id, blocker);
    case Decide(id) => DecideInv(st, id);
    case Fetch(id, s) => FetchInv(st, id, s);
    case Fetched(id) => FetchedInv(st, id);
    case Store(id, s) => StoreInv(st, id, s);
    case GuestRead(id, s, d) => GuestReadInv(st, id, s, d);
    case GuestWrite(id, s, d) => GuestWriteInv(st, id, s, d);
    case End(id) => EndInv(st, id);
    case Fail(id) => EndInv(st, id);
  }

  // ---------------------------------------------------------------- every interleaving

  /** `run` is a sequence of steps, each enabled where it happens, from `st` to `last`. */
  ghost predicate Leads(st: State, run: seq<Action>, last: State)
    decreases |run|
  {
    if run == [] then last == st else Enabled(st, run[0]) && Leads(Apply(st, run[0]), run[1..], last)
  }

  lemma {:induction false} RunInv(st: State, run: seq<Action>, last: State)
    requires Inv(st) && Leads(st, run, last)
    ensures Inv(last)
    decreases |run|
  {
    if run != [] {
      StepInv(st, run[0]);
      RunInv(Apply(st, run[0]), run[1..], last);
    }
  }

  /** The guest's writes of a run, applied to a disk in order. */
  ghost function GuestDisk(disk: Sector -> Data, run: seq<Action>): Sector -> Data
    decreases |run|
  {
    if run == [] then disk
    else if run[0].GuestWrite? then GuestDisk((t: Sector) => if t == run[0].s then run[0].d else disk(t), run[1..])
    else GuestDisk(disk, run[1..])
  }

  lemma {:induction false} GuestIsWrites(st: State, run: seq<Action>, last: State)
    requires Leads(st, run, last)
    ensures last.guest == GuestDisk(st.guest, run)
    decreases |run|
  {
    if run != [] {
      GuestIsWrites(Apply(st, run[0]), run[1..], last);
    }
  }

  /**
    In every interleaving of reads, writes and copy-on-read requests: requests sharing a cluster are never under way
    together when one of them is copy-on-read, and the disk shows exactly what the guest's writes alone, in the order
    they happened, would have left there.
   */
  lemma EveryRun(st: State, run: seq<Action>, last: State)
    requires Init(st) && Leads(st, run, last)
    ensures Exclusive(last)
    ensures forall s: Sector :: last.image.Visible(s) == GuestDisk(st.guest, run)(s)
    ensures forall id :: id in last.reqs ==> BounceFresh(last, id)
  {
    InitInv(st);
    RunInv(st, run, last);
    GuestIsWrites(st, run, last);
  }

  /**
    What a read or a copy-on-read hands to the guest, at any point of any run, is what the guest's writes so far have
    left on the disk.
   */
  lemma EveryRead(st: State, run: seq<Action>, last: State, a: Action)
    requires Init(st) && Leads(st, run, last) && Enabled(last, a)
    ensures a.GuestRead? ==> a.d == GuestDisk(st.guest, run)(a.s)
    ensures a.End? && last.reqs[a.id].phase.Storing? ==>
              forall s :: s in Sectors(last.reqs[a.id].range) ==>
                s in last.reqs[a.id].bounce && last.reqs[a.id].bounce[s] == GuestDisk(st.guest, run)(s)
  {
    InitInv(st);
    RunInv(st, run, last);
    GuestIsWrites(st, run, last);
    if a.End? && last.reqs[a.id].phase.Storing? {
      var r := last.reqs[a.id];
      assert ReqOk(last, a.id) && BounceFresh(last, a.id);
      forall s | s in Sectors(r.range) ensures s in r.bounce && r.bounce[s] == GuestDisk(st.guest, run)(s) {
        RangeRounded(r.range, s);
      }
    }
  }

  lemma RangeRounded(r: Range, s: Sector)
    requires 0 < r.nb && s in Sectors(r)
    ensures s in Sectors(RoundToClusters(r))
  {
    RoundedTouches(r, s);
    ClusterMonotone(r.sector, s);
    ClusterMonotone(s, r.sector + r.nb - 1);
    RoundedContains(r, s);
  }

  // ---------------------------------------------------------------- what a request does

  /** Who has to wait, said of clusters: a request that finds a copy-on-read about, or is one, and shares a cluster. */
  ghost predicate MustWait(st: State, kind: Kind, range: Range)
  {
    && (kind.CopyOnRead? || exists x :: x in st.reqs && st.reqs[x].kind.CopyOnRead?)
    && exists t :: t in st.reqs && st.reqs[t].Tracked() && Share(st.reqs[t].range, range)
  }

  /** An arriving request waits exactly when it has to, and then for one that shares a cluster with it. */
  lemma ArriveExact(st: State, id: Id, kind: Kind, range: Range)
    requires Inv(st) && id !in st.reqs && 0 < range.nb
    ensures Enabled(st, Arrive(id, kind, range, None)) <==> !MustWait(st, kind, range)
    ensures forall b: Id :: Enabled(st, Arrive(id, kind, range, Some(b))) ==>
              MustWait(st, kind, range) && b in st.reqs && st.reqs[b].Tracked() && Share(st.reqs[b].range, range)
    ensures MustWait(st, kind, range) ==> exists b: Id :: Enabled(st, Arrive(id, kind, range, Some(b)))
  {
    CountsSome(st);
    BlocksIs(st, range);
    hide Inv, Blocks, Share, Req.Tracked;
    if MustWait(st, kind, range) {
      var t :| t in st.reqs && st.reqs[t].Tracked() && Share(st.reqs[t].range, range);
      assert Blocks(st, t, range);
      assert Enabled(st, Arrive(id, kind, range, Some(t)));
    }
  }

  /** So does one that scans again, whether or not a copy-on-read is still about. */
  lemma RetryExact(st: State, id: Id)
    requires Inv(st) && id in st.reqs && st.reqs[id].phase.Woken?
    ensures var range := st.reqs[id].range;
            Enabled(st, Retry(id, None)) <==>
              !exists t :: t in st.reqs && st.reqs[t].Tracked() && Share(st.reqs[t].range, range)
    ensures forall b: Id :: Enabled(st, Retry(id, Some(b))) <==>
              b in st.reqs && st.reqs[b].Tracked() && Share(st.reqs[b].range, st.reqs[id].range)
  {
    assert ReqOk(st, id);
    BlocksIs(st, st.reqs[id].range);
    hide Inv, Blocks, Share, Req.Tracked;
  }

  /** What a scan stops at. */
  lemma BlocksIs(st: State, range: Range)
    requires Inv(st) && 0 < range.nb
    ensures forall t: Id :: Blocks(st, t, range) <==>
              t in st.reqs && st.reqs[t].Tracked() && Share(st.reqs[t].range, range)
  {
    forall t: Id
      ensures Blocks(st, t, range) <==> t in st.reqs && st.reqs[t].Tracked() && Share(st.reqs[t].range, range)
    {
      if t in st.reqs {
        assert ReqOk(st, t);
        OverlapIsSharing(st.reqs[t].range, range);
      }
    }
  }

  lemma CountsSome(st: State)
    requires Inv(st)
    ensures st.inFlight != 0 <==> exists x :: x in st.reqs && st.reqs[x].kind.CopyOnRead?
  {
    if st.inFlight != 0 {
      var x :| x in CopyOnReads(st.reqs);
    }
    if x :| x in st.reqs && st.reqs[x].kind.CopyOnRead? {
      assert x in CopyOnReads(st.reqs);
    }
  }

  /** The sectors a request has read into its bounce buffer, written back, read for the guest and written for it. */
  datatype Record = Record(fetched: set<Sector>, stored: set<Sector>, read: set<Sector>, written: set<Sector>)

  const NOTHING := Record({}, {}, {}, {})

  /** What request `id` has done after one more step; a new request of the name starts over. */
  function Recorded(done: Record, id: Id, a: Action): Record
  {
    if a.id != id then done
    else match a
      case Arrive(_, _, _, _) => NOTHING
      case Fetch(_, s) => done.(fetched := done.fetched + {s})
      case Store(_, s) => done.(stored := done.stored + {s})
      case GuestRead(_, s, _) => done.(read := done.read + {s})
      case GuestWrite(_, s, _) => done.(written := done.written + {s})
      case _ => done
  }

  function History(done: Record, id: Id, run: seq<Action>): Record
    decreases |run|
  {
    if run == [] then done else History(Recorded(done, id, run[0]), id, run[1..])
  }

  /** Every cluster the range touches is allocated. */
  ghost predicate Copied(i: Image, r: Range)
  {
    forall c :: r.Touches(c) ==> c in i.clusters
  }

  /** How far a request is, and what it has done so far. */
  ghost predicate Progress(r: Req, i: Image, done: Record)
  {
    var own, all := Sectors(r.range), Sectors(RoundToClusters(r.range));
    match r.phase
    case Fetching(todo) => done == Record(all - todo, {}, {}, {}) && todo <= all && !Copied(i, r.range)
    case Storing(todo) =>
      && done == Record(all, all - todo, {}, {}) && todo <= all
      && forall s :: s in all - todo ==> Cluster(s) in i.clusters
    case Transferring(todo) =>
      && done == (if r.kind.Write? then Record({}, {}, {}, own - todo) else Record({}, {}, own - todo, {}))
      && todo <= own && (r.kind.CopyOnRead? ==> Copied(i, r.range))
    case _ => done == NOTHING
  }

  ghost predicate Doing(st: State, id: Id, done: Record)
  {
    id in st.reqs ==> Progress(st.reqs[id], st.image, done)
  }

  lemma OneMore(all: set<Sector>, todo: set<Sector>, s: Sector)
    requires todo <= all && s in todo
    ensures all - (todo - {s}) == (all - todo) + {s}
  {
  }

  lemma FetchProgress(r: Req, i: Image, done: Record, s: Sector, bounce: map<Sector, Data>)
    requires Progress(r, i, done) && r.phase.Fetching? && s in r.phase.todo
    ensures Progress(r.(phase := Fetching(r.phase.todo - {s}), bounce := bounce), i,
                     done.(fetched := done.fetched + {s}))
  {
    hide Sectors, RoundToClusters, Copied;
    OneMore(Sectors(RoundToClusters(r.range)), r.phase.todo, s);
  }

  lemma StoreProgress(r: Req, i: Image, done: Record, s: Sector, j: Image)
    requires Progress(r, i, done) && r.phase.Storing? && s in r.phase.todo && j.clusters == i.clusters + {Cluster(s)}
    ensures Progress(r.(phase := Storing(r.phase.todo - {s})), j, done.(stored := done.stored + {s}))
  {
    hide Sectors, RoundToClusters, Copied, Cluster;
    OneMore(Sectors(RoundToClusters(r.range)), r.phase.todo, s);
  }

  lemma TransferProgress(r: Req, i: Image, done: Record, s: Sector, j: Image)
    requires Progress(r, i, done) && r.phase.Transferring? && s in r.phase.todo && i.clusters <= j.clusters
    ensures Progress(r.(phase := Transferring(r.phase.todo - {s})), j,
                     if r.kind.Write? then done.(written := done.written + {s}) else done.(read := done.read + {s}))
  {
    hide Sectors, RoundToClusters;
    OneMore(Sectors(r.range), r.phase.todo, s);
  }

  lemma AllocatedIsCopied(i: Image, r: Range)
    ensures AllAllocated(i, r) <==> Copied(i, r)
  {
    if Copied(i, r) {
      forall s | s in Sectors(r) ensures Cluster(s) in i.clusters {
        assert r.Touches(Cluster(s));
      }
    }
    if AllAllocated(i, r) {
      forall c | r.Touches(c) ensures c in i.clusters {
        var s: Sector :| r.Contains(s) && Cluster(s) == c;
        assert s in Sectors(r);
      }
    }
  }

  /** When the bounce buffer is written back, the range's clusters are allocated. */
  lemma StoredCopied(i: Image, r: Range)
    requires 0 < r.nb && forall s :: s in Sectors(RoundToClusters(r)) ==> Cluster(s) in i.clusters
    ensures Copied(i, r)
  {
    forall c | r.Touches(c) ensures c in i.clusters {
      var s: Sector :| r.Contains(s) && Cluster(s) == c;
      assert s in Sectors(r);
      RangeRounded(r, s);
    }
  }

  /** No step takes a cluster away, and only a write to one of its sectors allocates it. */
  lemma ClustersGrow(st: State, a: Action)
    requires Enabled(st, a)
    ensures Apply(st, a).image.clusters
         == st.image.clusters + if a.Store? || a.GuestWrite? then {Cluster(a.s)} else {}
  {
  }

  /** While a copy-on-read is at work nothing else allocates a cluster of its range. */
  lemma OthersElsewhere(st: State, id: Id, a: Action)
    requires Inv(st) && Enabled(st, a) && (a.Store? || a.GuestWrite?) && a.id != id
    requires id in st.reqs && st.reqs[id].Tracked() && st.reqs[id].kind.CopyOnRead?
    ensures !st.reqs[id].range.Touches(Cluster(a.s))
  {
    var r := st.reqs[a.id];
    assert ReqOk(st, a.id) && Guards(st.reqs[id], r);
    if a.Store? {
      RoundedTouches(r.range, a.s);
    } else {
      assert r.range.Contains(a.s);
    }
    assert r.range.Touches(Cluster(a.s));
  }

  /** A step of another request changes nothing of what is known about this one. */
  lemma DoingOther(st: State, id: Id, done: Record, a: Action)
    requires Inv(st) && Enabled(st, a) && a.id != id && Doing(st, id, done)
    ensures Doing(Apply(st, a), id, done)
  {
    ClustersGrow(st, a);
    OtherStays(st, id, a);
    if id in st.reqs && st.reqs[id].phase.Fetching? && (a.Store? || a.GuestWrite?) {
      assert ReqOk(st, id);
      OthersElsewhere(st, id, a);
    }
    hide Inv, Enabled, Apply, Sectors, RoundToClusters;
  }

  lemma OtherStays(st: State, id: Id, a: Action)
    requires Enabled(st, a) && a.id != id
    ensures id in Apply(st, a).reqs <==> id in st.reqs
    ensures id in st.reqs ==>
              var r, r2 := st.reqs[id], Apply(st, a).reqs[id];
              r2 == r || (r.phase.Waiting? && r2 == r.(phase := Woken))
  {
  }

  /** Its own steps: a sector more. */
  lemma DoingSector(st: State, done: Record, a: Action)
    requires Inv(st) && Enabled(st, a) && Doing(st, a.id, done)
    requires a.Fetch? || a.Store? || a.GuestRead? || a.GuestWrite?
    ensures Doing(Apply(st, a), a.id, Recorded(done, a.id, a))
  {
    ClustersGrow(st, a);
    var r, i, j := st.reqs[a.id], st.image, Apply(st, a).image;
    hide Inv, Progress;
    match a
    case Fetch(_, s) => FetchProgress(r, i, done, s, r.bounce[s := i.Visible(s)]);
    case Store(_, s) => StoreProgress(r, i, done, s, j);
    case GuestRead(_, s, _) => TransferProgress(r, i, done, s, j);
    case GuestWrite(_, s, _) => TransferProgress(r, i, done, s, j);
  }

  lemma DecideProgress(r: Req, i: Image, done: Record)
    requires Progress(r, i, done) && r.phase.Deciding? && r.kind.CopyOnRead?
    ensures var next := if AllAllocated(i, r.range) then Transferring(Sectors(r.range))
                        else Fetching(Sectors(RoundToClusters(r.range)));
            Progress(r.(phase := next), i, done)
  {
    AllocatedIsCopied(i, r.range);
    var own, all := Sectors(r.range), Sectors(RoundToClusters(r.range));
    assert own - own == {} && all - all == {};
    hide Sectors, RoundToClusters, Copied, AllAllocated;
  }

  lemma FetchedProgress(r: Req, i: Image, done: Record)
    requires Progress(r, i, done) && r.phase.Fetching? && r.phase.todo == {}
    ensures Progress(r.(phase := Storing(Sectors(RoundToClusters(r.range)))), i, done)
  {
    var all := Sectors(RoundToClusters(r.range));
    assert all - {} == all && all - all == {};
    hide Sectors, RoundToClusters, Copied;
  }

  lemma BegunProgress(kind: Kind, range: Range, i: Image)
    ensures Progress(Begun(kind, range), i, NOTHING)
  {
    var own := Sectors(range);
    assert own - own == {};
    hide Sectors, RoundToClusters, Copied;
  }

  /** Its own steps: arriving, waiting, a new phase, the end. */
  lemma DoingPhase(st: State, done: Record, a: Action)
    requires Inv(st) && Enabled(st, a) && Doing(st, a.id, done)
    requires !a.Fetch? && !a.Store? && !a.GuestRead? && !a.GuestWrite?
    ensures Doing(Apply(st, a), a.id, Recorded(done, a.id, a))
  {
    assert a.id in st.reqs ==> ReqOk(st, a.id);
    hide Inv, Sectors, RoundToClusters, AllAllocated, Copied, ScanFinds, Blocks;
    match a
    case Arrive(_, kind, range, _) => BegunProgress(kind, range, st.image);
    case Retry(id, _) =>
      assert Progress(st.reqs[id], st.image, done);
      BegunProgress(st.reqs[id].kind, st.reqs[id].range, st.image);
    case Decide(id) => DecideProgress(st.reqs[id], st.image, done);
    case Fetched(id) => FetchedProgress(st.reqs[id], st.image, done);
    case _ =>
  }

  lemma DoingStep(st: State, id: Id, done: Record, a: Action)
    requires Inv(st) && Enabled(st, a) && Doing(st, id, done)
    ensures Doing(Apply(st, a), id, Recorded(done, id, a))
  {
    hide Inv, Doing, Apply, Enabled;
    if a.id != id {
      DoingOther(st, id, done, a);
    } else if a.Fetch? || a.Store? || a.GuestRead? || a.GuestWrite? {
      DoingSector(st, done, a);
    } else {
      DoingPhase(st, done, a);
    }
  }

  lemma {:induction false} DoingRun(st: State, run: seq<Action>, last: State, id: Id, done: Record)
    requires Inv(st) && Leads(st, run, last) && Doing(st, id, done)
    ensures Doing(last, id, History(done, id, run))
    decreases |run|
  {
    hide Inv, Doing, Apply, Enabled, Recorded;
    if run != [] {
      StepInv(st, run[0]);
      DoingStep(st, id, done, run[0]);
      DoingRun(Apply(st, run[0]), run[1..], last, id, Recorded(done, id, run[0]));
    }
  }

  /** A request that is finished has done all of its work. */
  lemma ProgressDone(r: Req, i: Image, done: Record)
    requires Progress(r, i, done) && r.Finished() && 0 < r.range.nb && (r.phase.Storing? ==> r.kind.CopyOnRead?)
    ensures var own, all := Sectors(r.range), Sectors(RoundToClusters(r.range));
            && (r.kind.Write? ==> done == Record({}, {}, {}, own))
            && (r.kind.Read? ==> done == Record({}, {}, own, {}))
            && (r.kind.CopyOnRead? ==> done == Record({}, {}, own, {}) || done == Record(all, all, {}, {}))
    ensures r.kind.CopyOnRead? ==> Copied(i, r.range)
  {
    var own, all := Sectors(r.range), Sectors(RoundToClusters(r.range));
    assert own - {} == own && all - {} == all;
    if r.phase.Storing? { StoredCopied(i, r.range); }
    hide Sectors, RoundToClusters, Copied;
  }

  /**
    In every interleaving a request that ends has done its work since it arrived: a read has read exactly its sectors, a
    write has written exactly its sectors, and a copy-on-read has either read exactly its sectors, or fetched and stored
    exactly those of all its clusters. Either way the clusters of a copy-on-read are then allocated.
   */
  lemma EveryEnd(st: State, run: seq<Action>, last: State, id: Id)
    requires Init(st) && Leads(st, run, last) && Enabled(last, End(id))
    ensures var r, done := last.reqs[id], History(NOTHING, id, run);
            var own, all := Sectors(r.range), Sectors(RoundToClusters(r.range));
            && (r.kind.Write? ==> done == Record({}, {}, {}, own))
            && (r.kind.Read? ==> done == Record({}, {}, own, {}))
            && (r.kind.CopyOnRead? ==> done == Record({}, {}, own, {}) || done == Record(all, all, {}, {}))
    ensures last.reqs[id].kind.CopyOnRead? ==> Copied(last.image, last.reqs[id].range)
  {
    InitInv(st);
    DoingRun(st, run, last, id, NOTHING);
    RunInv(st, run, last);
    assert ReqOk(last, id);
    hide Inv, Init, Leads, History, Sectors, RoundToClusters, Copied, Progress;
    ProgressDone(last.reqs[id], last.image, History(NOTHING, id, run));
  }

  /**
    A copy-on-read fills its bounce buffer only while some cluster of its range is missing, so what is there already is
    not copied again; and it reads plainly only when none is.
   */
  lemma CopiesIfNeeded(st: State, run: seq<Action>, last: State, id: Id)
    requires Init(st) && Leads(st, run, last) && id in last.reqs && last.reqs[id].kind.CopyOnRead?
    ensures last.reqs[id].phase.Fetching? ==> !Copied(last.image, last.reqs[id].range)
    ensures last.reqs[id].phase.Transferring? ==> Copied(last.image, last.reqs[id].range)
  {
    InitInv(st);
    DoingRun(st, run, last, id, NOTHING);
  }

  // ---------------------------------------------------------------- waiting

  predicate WaitsFor(st: State, a: Id, b: Id)
  {
    a in st.reqs && st.reqs[a].phase == Waiting(b)
  }

  /** Request `cycle[i]` waits for the next one, round the cycle. */
  predicate WaitsForNext(st: State, cycle: seq<Id>, i: nat)
    requires i < |cycle|
  {
    WaitsFor(st, cycle[i], cycle[if i + 1 < |cycle| then i + 1 else 0])
  }

  /** Requests that are waited for do not wait, so waits cannot form a cycle. */
  lemma NoWaitCycle(st: State, cycle: seq<Id>)
    requires Inv(st) && cycle != []
    ensures exists i :: 0 <= i < |cycle| && !WaitsForNext(st, cycle, i)
  {
    if WaitsForNext(st, cycle, 0) {
      assert ReqOk(st, cycle[0]);
      var next := if 1 < |cycle| then 1 else 0;
      assert !WaitsForNext(st, cycle, next);
    }
  }

  /** As long as there are requests, some request can take a step of its own work; no error has to come to its help. */
  lemma CanProceed(st: State) returns (a: Action)
    requires Inv(st) && st.reqs != map[]
    ensures Enabled(st, a) && !a.Arrive? && !a.Fail?
  {
    var id :| id in st.reqs;
    assert ReqOk(st, id);
    var r := st.reqs[id];
    if r.phase.Waiting? {
      a := TrackedProceeds(st, r.phase.on);
    } else if r.phase.Woken? {
      if t :| Blocks(st, t, r.range) {
        a := Retry(id, Some(t));
      } else {
        a := Retry(id, None);
      }
    } else {
      a := TrackedProceeds(st, id);
    }
  }

  /** A tracked request never waits: its next driver call, its next phase or its end is due. */
  lemma TrackedProceeds(st: State, id: Id) returns (a: Action)
    requires Inv(st) && id in st.reqs && st.reqs[id].Tracked()
    ensures Enabled(st, a) && !a.Arrive? && !a.Fail? && a.id == id
  {
    var r := st.reqs[id];
    assert ReqOk(st, id);
    if r.phase.Deciding? {
      a := Decide(id);
    } else if r.phase.todo == {} {
      a := if r.phase.Fetching? then Fetched(id) else End(id);
    } else {
      var s :| s in r.phase.todo;
      match r.phase
      case Fetching(_) => a := Fetch(id, s);
      case Storing(_) => a := Store(id, s);
      case Transferring(_) =>
        a := if r.kind.Write? then GuestWrite(id, s, 0) else GuestRead(id, s, st.image.Visible(s));
    }
  }

  // ---------------------------------------------------------------- every request finishes

  /** Steps a request may still take by itself. */
  function Rank(r: Req): nat
  {
    var n, m := |Sectors(RoundToClusters(r.range))|, |Sectors(r.range)|;
    match r.phase
    case Waiting(_) => 0
    case Woken => 4 + 2 * n + m
    case Deciding => 3 + 2 * n + m
    case Fetching(todo) => 2 + n + |todo|
    case Storing(todo) => 1 + |todo|
    case Transferring(todo) => 1 + |todo|
  }

  ghost function Total(reqs: map<Id, Req>, ids: set<Id>): nat
    requires ids <= reqs.Keys
  {
    if ids == {} then 0 else var x :| x in ids; Rank(reqs[x]) + Total(reqs, ids - {x})
  }

  lemma {:induction false} TotalSplit(reqs: map<Id, Req>, ids: set<Id>, x: Id)
    requires ids <= reqs.Keys && x in ids
    ensures Total(reqs, ids) == Rank(reqs[x]) + Total(reqs, ids - {x})
    decreases ids
  {
    hide Rank;
    var y :| y in ids && Total(reqs, ids) == Rank(reqs[y]) + Total(reqs, ids - {y});
    if y != x {
      TotalSplit(reqs, ids - {y}, x);
      TotalSplit(reqs, ids - {x}, y);
      assert ids - {y} - {x} == ids - {x} - {y};
    }
  }

  lemma {:induction false} TotalSame(a: map<Id, Req>, b: map<Id, Req>, ids: set<Id>)
    requires ids <= a.Keys && ids <= b.Keys && forall x :: x in ids ==> a[x] == b[x]
    ensures Total(a, ids) == Total(b, ids)
    decreases ids
  {
    hide Rank;
    if ids != {} {
      var x :| x in ids && Total(a, ids) == Rank(a[x]) + Total(a, ids - {x});
      TotalSame(a, b, ids - {x});
      TotalSplit(b, ids, x);
    }
  }

  ghost function Work(st: State): nat { Total(st.reqs, st.reqs.Keys) }

  /** A step that lowers one request's rank lowers the whole. */
  lemma WorkFalls(st: State, st2: State, id: Id)
    requires id in st.reqs && id in st2.reqs && st2.reqs == st.reqs[id := st2.reqs[id]]
    requires Rank(st2.reqs[id]) < Rank(st.reqs[id])
    ensures |st2.reqs| == |st.reqs| && Work(st2) < Work(st)
  {
    hide Rank;
    assert st2.reqs.Keys == st.reqs.Keys;
    TotalSplit(st.reqs, st.reqs.Keys, id);
    TotalSplit(st2.reqs, st2.reqs.Keys, id);
    TotalSame(st.reqs, st2.reqs, st.reqs.Keys - {id});
  }

  /** Every step but an arrival leaves fewer requests, or as many with less to do. */
  lemma StepFalls(st: State, a: Action)
    requires Inv(st) && Enabled(st, a) && !a.Arrive?
    ensures var st2 := Apply(st, a);
            |st2.reqs| < |st.reqs| || (|st2.reqs| == |st.reqs| && Work(st2) < Work(st))
  {
    hide Rank, Work, Inv;
    var st2 := Apply(st, a);
    if a.End? || a.Fail? {
      RemovedFewer(st, a.id);
    } else {
      RankFalls(st, a);
      WorkFalls(st, st2, a.id);
    }
  }

  lemma RemovedFewer(st: State, id: Id)
    requires id in st.reqs
    ensures |Removed(st, id).reqs| < |st.reqs|
  {
    var st2 := Removed(st, id);
    assert st2.reqs.Keys == st.reqs.Keys - {id};
    assert |st2.reqs.Keys| < |st.reqs.Keys|;
  }

  lemma RankFalls(st: State, a: Action)
    requires Enabled(st, a) && !a.Arrive? && !a.End? && !a.Fail?
    ensures var st2 := Apply(st, a);
            a.id in st2.reqs && st2.reqs == st.reqs[a.id := st2.reqs[a.id]]
            && Rank(st2.reqs[a.id]) < Rank(st.reqs[a.id])
  {
    var r, r2 := st.reqs[a.id], Apply(st, a).reqs[a.id];
    assert r2.range == r.range;
    if a.Fetch? || a.Store? || a.GuestRead? || a.GuestWrite? {
      OneLess(r.phase.todo, a.s);
      TodoFalls(r, r2);
    } else {
      PhaseFalls(r, r2);
    }
    hide Rank;
  }

  lemma TodoFalls(r: Req, r2: Req)
    requires r2.range == r.range
    requires (r.phase.Fetching? && r2.phase.Fetching?) || (r.phase.Storing? && r2.phase.Storing?)
             || (r.phase.Transferring? && r2.phase.Transferring?)
    requires |r2.phase.todo| < |r.phase.todo|
    ensures Rank(r2) < Rank(r)
  {
  }

  lemma PhaseFalls(r: Req, r2: Req)
    requires r2.range == r.range
    requires match r2.phase
             case Waiting(_) => r.phase.Woken?
             case Woken => false
             case Deciding => r.phase.Woken?
             case Fetching(todo) => r.phase.Deciding? && todo == Sectors(RoundToClusters(r.range))
             case Storing(todo) => r.phase.Fetching? && todo == Sectors(RoundToClusters(r.range))
             case Transferring(todo) => (r.phase.Deciding? || r.phase.Woken?) && todo == Sectors(r.range)
    ensures Rank(r2) < Rank(r)
  {
  }

  lemma OneLess(todo: set<Sector>, s: Sector)
    requires s in todo
    ensures |todo - {s}| == |todo| - 1
  {
  }

  /** Step `i` of an unending execution without arrivals. */
  ghost predicate Follows(states: nat -> State, steps: nat -> Action, i: nat)
  {
    Enabled(states(i), steps(i)) && !steps(i).Arrive? && states(i + 1) == Apply(states(i), steps(i))
  }

  /** Where an execution without arrivals stops. */
  lemma {:induction false} StopsAt(states: nat -> State, steps: nat -> Action) returns (n: nat)
    requires Inv(states(0))
    ensures !Follows(states, steps, n) && Inv(states(n)) && forall i: nat :: i < n ==> Follows(states, steps, i)
    decreases |states(0).reqs|, Work(states(0))
  {
    hide *;
    n := 0;
    if Follows(states, steps, 0) {
      FirstStep(states, steps);
      var m := StopsAt(Later(states), Later(steps));
      n := m + 1;
      LaterFollows(states, steps, m);
      LaterIs(states, m);
      forall i: nat | i < n ensures Follows(states, steps, i) {
        if i > 0 { LaterFollows(states, steps, i - 1); }
      }
    }
  }

  /** Without new arrivals no execution goes on forever. */
  lemma NoEndlessRun(states: nat -> State, steps: nat -> Action)
    requires Inv(states(0))
    ensures exists i: nat :: !Follows(states, steps, i)
  {
    hide *;
    var n := StopsAt(states, steps);
  }

  /** The execution does not rest at `i` while some request could take a step. */
  ghost predicate GoesOn(states: nat -> State, steps: nat -> Action, i: nat)
  {
    (exists a :: Enabled(states(i), a) && !a.Arrive?) ==> Follows(states, steps, i)
  }

  /**
    After any interleaving, once no more requests arrive, every execution that goes on as long as it can comes to a
    point where all requests have ended, and the disk then shows exactly the guest's writes.
   */
  lemma AllEnd(st: State, run: seq<Action>, states: nat -> State, steps: nat -> Action) returns (n: nat)
    requires Init(st) && Leads(st, run, states(0)) && forall i: nat :: GoesOn(states, steps, i)
    ensures states(n).reqs == map[] && forall i: nat :: i < n ==> Follows(states, steps, i)
    ensures forall s: Sector :: states(n).image.Visible(s) == states(n).guest(s)
  {
    InitInv(st);
    RunInv(st, run, states(0));
    n := StopsAt(states, steps);
    hide Enabled, Apply, Leads;
    assert GoesOn(states, steps, n);
    if states(n).reqs != map[] {
      var a := CanProceed(states(n));
    }
  }

  lemma LaterIs<T>(f: nat -> T, i: nat)
    ensures Later(f)(i) == f(i + 1)
  {
  }

  function Later<T>(f: nat -> T): nat -> T
  {
    (i: nat) => f(i + 1)
  }

  lemma LaterFollows(states: nat -> State, steps: nat -> Action, i: nat)
    ensures Follows(Later(states), Later(steps), i) <==> Follows(states, steps, i + 1)
  {
    hide Enabled, Apply;
  }

  lemma FirstStep(states: nat -> State, steps: nat -> Action)
    requires Inv(states(0)) && Follows(states, steps, 0)
    ensures Inv(Later(states)(0))
    ensures var st, st2 := states(0), Later(states)(0);
            |st2.reqs| < |st.reqs| || (|st2.reqs| == |st.reqs| && Work(st2) < Work(st))
  {
    hide Inv, Enabled, Apply, Work;
    StepInv(states(0), steps(0));
    StepFalls(states(0), steps(0));
  }
}
