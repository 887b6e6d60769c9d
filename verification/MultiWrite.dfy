/**
  Merging of write requests submitted together: `qemu_iovec_concat`,
  `multiwrite_merge` and `multiwrite_cb` of block.c and util/iov.c.

  The merged requests are compared with the sorted originals by what a disk holds
  after either list has been applied in order.
 */
module MultiWrite {
  import opened Common

  type Byte = int

  const SECTOR_SIZE: nat := 512

  type Limit = n: nat | 1 <= n witness 1

  /** The largest number of segments the host accepts. */
  const IOV_MAX: Limit

  // ---------------------------------------------------------------- vectors

  /** A QEMUIOVector: the segments of a buffer. */
  type Vector = seq<seq<Byte>>

  function Flatten(v: Vector): seq<Byte>
  {
    if v == [] then [] else Flatten(v[..|v| - 1]) + v[|v| - 1]
  }

  lemma FlattenLast(v: Vector)
    requires v != []
    ensures Flatten(v) == Flatten(v[..|v| - 1]) + v[|v| - 1]
  {
  }

  lemma {:induction false} FlattenAppend(v: Vector, w: Vector)
    ensures Flatten(v + w) == Flatten(v) + Flatten(w)
    decreases |w|
  {
    if w == [] {
      assert v + w == v;
    } else {
      var u := v + w;
      assert u[..|u| - 1] == v + w[..|w| - 1] && u[|u| - 1] == w[|w| - 1];
      FlattenAppend(v, w[..|w| - 1]);
      FlattenLast(u);
      FlattenLast(w);
      hide Flatten;
    }
  }

  /** The first `n` bytes of a vector, cut within a segment if need be; empty segments are dropped. */
  function Taken(v: Vector, n: nat): Vector
  {
    if v == [] || n == 0 then []
    else
      var front := Taken(v[..|v| - 1], n);
      var done := |Flatten(front)|;
      var last := v[|v| - 1];
      if done < n && last != [] then front + [last[..Min(|last|, n - done)]] else front
  }

  lemma {:induction false} TakenIs(v: Vector, n: nat)
    ensures Flatten(Taken(v, n)) == Flatten(v)[..Min(n, |Flatten(v)|)]
    decreases |v|
  {
    if v != [] && n != 0 {
      var front := Taken(v[..|v| - 1], n);
      TakenIs(v[..|v| - 1], n);
      var last := v[|v| - 1];
      if |Flatten(front)| < n && last != [] {
        FlattenOne(front, last[..Min(|last|, n - |Flatten(front)|)]);
      }
      PrefixOfSum(Flatten(v[..|v| - 1]), last, n);
      hide Flatten;
    }
  }

  lemma PrefixOfSum(x: seq<Byte>, y: seq<Byte>, n: nat)
    ensures (x + y)[..Min(n, |x + y|)] ==
            if n <= |x| then x[..n] else x[..|x|] + y[..Min(|y|, n - |x|)]
  {
  }

  lemma FlattenOne(v: Vector, x: seq<Byte>)
    ensures Flatten(v + [x]) == Flatten(v) + x
  {
    assert (v + [x])[..|v|] == v;
  }

  /** qemu_iovec_concat from the start of `src`. */
  method Concat(dst: Vector, src: Vector, sbytes: nat) returns (v: Vector)
    ensures v == dst + Taken(src, sbytes)
  {
    hide Taken, Flatten;
    v := dst;
    NothingTaken(src, sbytes);
    if sbytes == 0 {
      return;
    }
    var i, done := 0, 0;
    while done < sbytes && i < |src|
      invariant i <= |src| && v == dst + Taken(src[..i], sbytes)
      invariant done == |Flatten(Taken(src[..i], sbytes))| <= sbytes
      decreases |src| - i
    {
      TakenStep(src, i, sbytes);
      if 0 < |src[i]| {
        var len := Min(|src[i]|, sbytes - done);
        v := v + [src[i][..len]];
        done := done + len;
      }
      i := i + 1;
    }
    TakenEnough(src, i, sbytes);
  }

  lemma NothingTaken(src: Vector, n: nat)
    ensures Taken(src[..0], n) == [] && Flatten([]) == [] && Taken(src, 0) == []
  {
  }

  /** One segment more, while bytes are still wanted. */
  lemma TakenStep(src: Vector, i: nat, n: nat)
    requires i < |src| && |Flatten(Taken(src[..i], n))| < n
    ensures var front := Taken(src[..i], n);
            var len := Min(|src[i]|, n - |Flatten(front)|);
            && Taken(src[..i + 1], n) == (if src[i] != [] then front + [src[i][..len]] else front)
            && |Flatten(Taken(src[..i + 1], n))| == |Flatten(front)| + len <= n
  {
    assert src[..i + 1][..i] == src[..i];
    var front := Taken(src[..i], n);
    FlattenOne(front, src[i][..Min(|src[i]|, n - |Flatten(front)|)]);
  }

  /** Once enough bytes are taken, or all segments seen, the rest adds nothing. */
  lemma {:induction false} TakenEnough(src: Vector, i: nat, n: nat)
    requires i <= |src| && (i == |src| || n <= |Flatten(Taken(src[..i], n))|)
    ensures Taken(src, n) == Taken(src[..i], n)
    decreases |src| - i
  {
    if i == |src| {
      assert src[..i] == src;
    } else {
      assert src[..i + 1][..i] == src[..i];
      TakenEnough(src, i + 1, n);
    }
  }

  // ---------------------------------------------------------------- requests

  /** A BlockRequest: `nb` sectors from `sector` on, with their data. */
  datatype Req = Req(sector: nat, nb: nat, qiov: Vector) {
    function End(): nat { sector + nb }

    predicate Covers(s: int) { sector <= s < End() }

    /** The vector holds as many bytes as the sectors need. */
    predicate Ok() { |Flatten(qiov)| == nb * SECTOR_SIZE }

    function ByteAt(b: nat): Byte
      requires Ok() && Covers(b / SECTOR_SIZE)
    {
      Flatten(qiov)[b - sector * SECTOR_SIZE]
    }
  }

  predicate AllOk(reqs: seq<Req>)
  {
    forall i :: 0 <= i < |reqs| ==> reqs[i].Ok()
  }

  predicate Sorted(reqs: seq<Req>)
  {
    forall i, j :: 0 <= i < j < |reqs| ==> reqs[i].sector <= reqs[j].sector
  }

  /** The byte at `b` after the requests have been applied in order to `disk`. */
  function After(reqs: seq<Req>, disk: nat -> Byte, b: nat): Byte
    requires AllOk(reqs)
    decreases |reqs|
  {
    if reqs == [] then disk(b)
    else
      var last := reqs[|reqs| - 1];
      if last.Covers(b / SECTOR_SIZE) then last.ByteAt(b) else After(reqs[..|reqs| - 1], disk, b)
  }

  // ---------------------------------------------------------------- merging two requests

  /** The guard for merging `r` into `last`. */
  predicate CanMerge(last: Req, r: Req)
  {
    r.sector <= last.End() && |last.qiov| + |r.qiov| + 1 <= IOV_MAX
  }

  /** `last` up to where `r` starts, then `r`. */
  function Combined(last: Req, r: Req): Req
    requires last.sector <= r.sector
  {
    var q := Taken(last.qiov, (r.sector - last.sector) * SECTOR_SIZE) + Taken(r.qiov, |Flatten(r.qiov)|);
    Req(last.sector, |Flatten(q)| / SECTOR_SIZE, q)
  }

  lemma CombinedIs(last: Req, r: Req)
    requires last.Ok() && r.Ok() && last.sector <= r.sector <= last.End()
    ensures Combined(last, r).Ok() && Combined(last, r).End() == r.End()
    ensures Flatten(Combined(last, r).qiov)
            == Flatten(last.qiov)[..(r.sector - last.sector) * SECTOR_SIZE] + Flatten(r.qiov)
  {
    hide Flatten, Taken;
    var n := (r.sector - last.sector) * SECTOR_SIZE;
    var x, y := Flatten(last.qiov), Flatten(r.qiov);
    FlattenAppend(Taken(last.qiov, n), Taken(r.qiov, |y|));
    TakenIs(last.qiov, n);
    TakenIs(r.qiov, |y|);
    assert n <= |x| && y[..|y|] == y;
    assert |x[..n] + y| == (r.End() - last.sector) * SECTOR_SIZE;
  }

  /** Byte by byte: `r` where it reaches, `last` before it, nothing of `last` after it. */
  lemma CombinedByte(last: Req, r: Req, b: nat)
    requires last.Ok() && r.Ok() && last.sector <= r.sector <= last.End()
    ensures Combined(last, r).Ok()
    ensures var s := b / SECTOR_SIZE;
            Combined(last, r).Covers(s) <==> last.sector <= s < r.End()
    ensures r.Covers(b / SECTOR_SIZE) ==> Combined(last, r).ByteAt(b) == r.ByteAt(b)
    ensures last.sector <= b / SECTOR_SIZE < r.sector ==> Combined(last, r).ByteAt(b) == last.ByteAt(b)
  {
    CombinedIs(last, r);
    hide Flatten, Taken, Combined;
  }

  // ---------------------------------------------------------------- merging a sorted list

  lemma AllOkWith(reqs: seq<Req>, r: Req)
    requires AllOk(reqs) && r.Ok()
    ensures AllOk(reqs + [r])
  {
  }

  /** The merged list with one more request: joined to the last one, or appended. */
  function Joined(out: seq<Req>, r: Req): (next: seq<Req>)
    requires AllOk(out) && r.Ok() && (out != [] ==> out[|out| - 1].sector <= r.sector)
    ensures AllOk(next) && next != [] && |next| <= |out| + 1
    ensures next[|next| - 1].sector <= r.sector && next[|next| - 1].End() == r.End()
  {
    if out != [] && CanMerge(out[|out| - 1], r) then
      CombinedIs(out[|out| - 1], r);
      AllOkWith(out[..|out| - 1], Combined(out[|out| - 1], r));
      out[..|out| - 1] + [Combined(out[|out| - 1], r)]
    else
      AllOkWith(out, r);
      out + [r]
  }

  /** What multiwrite_merge makes of a sorted list. */
  function Merged(reqs: seq<Req>): (out: seq<Req>)
    requires Sorted(reqs) && AllOk(reqs)
    ensures AllOk(out) && |out| <= |reqs|
    ensures reqs != [] ==> out != [] && out[|out| - 1].sector <= reqs[|reqs| - 1].sector
    ensures reqs != [] ==> out[|out| - 1].End() == reqs[|reqs| - 1].End()
    decreases |reqs|
  {
    if reqs == [] then []
    else
      SortedPrefix(reqs, |reqs| - 1);
      Joined(Merged(reqs[..|reqs| - 1]), reqs[|reqs| - 1])
  }

  /** The last request of `reqs` is merged into the last of `before`. */
  predicate MergesLast(reqs: seq<Req>, before: seq<Req>)
    requires reqs != []
  {
    before != [] && CanMerge(before[|before| - 1], reqs[|reqs| - 1])
  }

  /** The request at `i` is merged into its predecessor. */
  predicate MergesAt(reqs: seq<Req>, i: nat)
    requires Sorted(reqs) && AllOk(reqs) && i < |reqs|
  {
    MergesLast(reqs[..i + 1], Merged(reqs[..i]))
  }

  lemma SortedPrefix(reqs: seq<Req>, n: nat)
    requires Sorted(reqs) && AllOk(reqs) && n <= |reqs|
    ensures Sorted(reqs[..n]) && AllOk(reqs[..n])
  {
  }

  lemma MergedStep(reqs: seq<Req>, n: nat)
    requires Sorted(reqs) && AllOk(reqs) && n < |reqs|
    ensures var before := Merged(reqs[..n]);
            Merged(reqs[..n + 1]) ==
            if MergesAt(reqs, n) then before[..|before| - 1] + [Combined(before[|before| - 1], reqs[n])]
            else before + [reqs[n]]
    ensures MergesAt(reqs, n) ==> n > 0 && Merged(reqs[..n]) != []
    ensures n > 0 ==> var before := Merged(reqs[..n]);
                      && before != [] && before[|before| - 1].sector <= reqs[n].sector
                      && before[|before| - 1].End() == reqs[n - 1].End()
  {
    hide Combined, CanMerge, Flatten;
    assert reqs[..n + 1][..n] == reqs[..n];
    assert n > 0 ==> reqs[..n][n - 1] == reqs[n - 1];
  }

  /** The merged request: the first up to where the second starts, then all of the second. */
  method Combine(last: Req, r: Req) returns (c: Req)
    requires last.sector <= r.sector
    ensures c == Combined(last, r)
  {
    hide Taken, Flatten;
    var q := Concat([], last.qiov, (r.sector - last.sector) * SECTOR_SIZE);
    var size := Size(r.qiov);
    q := Concat(q, r.qiov, size);
    var total := Size(q);
    c := Req(last.sector, total / SECTOR_SIZE, q);
    ghost var front := Taken(last.qiov, (r.sector - last.sector) * SECTOR_SIZE);
    assert [] + front == front;
  }

  /** One turn of the loop of multiwrite_merge. */
  method MergeStep(reqs: array<Req>, outidx: nat, i: nat, ghost orig: seq<Req>) returns (next: nat)
    requires outidx < i < reqs.Length == |orig| && Sorted(orig) && AllOk(orig)
    requires reqs[outidx + 1..] == orig[outidx + 1..] && reqs[..outidx + 1] == Merged(orig[..i])
    modifies reqs
    ensures outidx <= next <= i && reqs[next + 1..] == orig[next + 1..] && reqs[..next + 1] == Merged(orig[..i + 1])
  {
    hide *;
    ghost var out := reqs[..outidx + 1];
    MergedNext(orig, i, out);
    TailAt(reqs[..], orig, outidx, i);
    var last, r := reqs[outidx], reqs[i];
    if CanMerge(last, r) {
      var c := Combine(last, r);
      reqs[outidx] := c;
      assert reqs[..outidx + 1] == out[..outidx] + [c];
      assert reqs[outidx + 1..] == orig[outidx + 1..];
      next := outidx;
    } else {
      next := outidx + 1;
      ghost var rest := reqs[outidx + 1..];
      reqs[next] := r;
      assert reqs[..next + 1] == out + [r];
      assert reqs[next + 1..] == rest[1..];
      assert rest[1..] == orig[next + 1..];
    }
  }

  lemma TailAt(reqs: seq<Req>, orig: seq<Req>, outidx: nat, i: nat)
    requires |reqs| == |orig| && outidx < i < |reqs| && reqs[outidx + 1..] == orig[outidx + 1..]
    ensures reqs[i] == orig[i]
  {
    assert reqs[outidx + 1..][i - outidx - 1] == orig[outidx + 1..][i - outidx - 1];
  }

  lemma MergedNext(reqs: seq<Req>, n: nat, out: seq<Req>)
    requires Sorted(reqs) && AllOk(reqs) && 0 < n < |reqs| && out == Merged(reqs[..n])
    ensures out != [] && out[|out| - 1].sector <= reqs[n].sector
    ensures Merged(reqs[..n + 1]) ==
            if CanMerge(out[|out| - 1], reqs[n]) then out[..|out| - 1] + [Combined(out[|out| - 1], reqs[n])]
            else out + [reqs[n]]
  {
    MergedStep(reqs, n);
    hide Merged, Joined, Combined, CanMerge;
    assert reqs[..n + 1][n] == reqs[n];
  }

  /** multiwrite_merge on an array qsort has put in order: the first `n` entries become the merged requests. */
  method Merge(reqs: array<Req>) returns (n: nat)
    requires 0 < reqs.Length && Sorted(reqs[..]) && AllOk(reqs[..])
    modifies reqs
    ensures n <= reqs.Length && reqs[..n] == Merged(old(reqs[..]))
    ensures old(Accepted(reqs[..])) ==> Accepted(reqs[..n])
  {
    ghost var orig := reqs[..];
    var outidx := 0;
    assert orig[..1][..0] == [] && reqs[..1] == orig[..1] == [orig[0]];
    assert Merged(orig[..1]) == [orig[0]];
    hide Merged, Sorted, AllOk, Accepted;
    for i := 1 to reqs.Length
      invariant outidx < i && reqs[outidx + 1..] == orig[outidx + 1..]
      invariant reqs[..outidx + 1] == Merged(orig[..i])
    {
      outidx := MergeStep(reqs, outidx, i, orig);
    }
    assert orig[..reqs.Length] == orig;
    n := outidx + 1;
    if Accepted(orig) { MergedAccepted(orig, |orig|); }
  }

  /** The size field of a vector. */
  method Size(v: Vector) returns (n: nat)
    ensures n == |Flatten(v)|
  {
    n := 0;
    for i := 0 to |v|
      invariant n == |Flatten(v[..i])|
    {
      assert v[..i + 1][..i] == v[..i];
      n := n + |v[i]|;
    }
    assert v[..|v|] == v;
  }

  // ---------------------------------------------------------------- what merging preserves

  lemma AfterAppend(out: seq<Req>, r: Req, disk: nat -> Byte, b: nat)
    requires AllOk(out) && r.Ok()
    ensures AllOk(out + [r])
    ensures After(out + [r], disk, b) == if r.Covers(b / SECTOR_SIZE) then r.ByteAt(b) else After(out, disk, b)
  {
    assert (out + [r])[..|out|] == out;
  }

  /** The merge at `i` drops sector `s` of the request before it. */
  predicate CutAt(reqs: seq<Req>, i: nat, s: nat)
    requires Sorted(reqs) && AllOk(reqs)
  {
    0 < i < |reqs| && MergesAt(reqs, i) && reqs[i].End() <= s < reqs[i - 1].End()
  }

  /** The merge at `i` drops sector `s`, and no request after it, among the first `n`, writes it again. */
  predicate DroppedAt(reqs: seq<Req>, i: nat, n: nat, s: nat)
    requires Sorted(reqs) && AllOk(reqs) && n <= |reqs|
  {
    i < n && CutAt(reqs, i, s) && forall j :: i < j < n ==> !reqs[j].Covers(s)
  }

  ghost predicate Lost(reqs: seq<Req>, n: nat, s: nat)
    requires Sorted(reqs) && AllOk(reqs) && n <= |reqs|
  {
    exists i: nat :: DroppedAt(reqs, i, n, s)
  }

  lemma LostStep(reqs: seq<Req>, n: nat, s: nat)
    requires Sorted(reqs) && AllOk(reqs) && n < |reqs|
    ensures Lost(reqs, n + 1, s) <==> !reqs[n].Covers(s) && (CutAt(reqs, n, s) || Lost(reqs, n, s))
  {
    hide Sorted, AllOk, CutAt;
    if Lost(reqs, n + 1, s) {
      var i: nat :| DroppedAt(reqs, i, n + 1, s);
      if i == n { CutAvoids(reqs, n, s); } else { assert DroppedAt(reqs, i, n, s); }
    }
    if !reqs[n].Covers(s) {
      if CutAt(reqs, n, s) {
        assert DroppedAt(reqs, n, n + 1, s);
      } else if Lost(reqs, n, s) {
        var i: nat :| DroppedAt(reqs, i, n, s);
        assert DroppedAt(reqs, i, n + 1, s);
      }
    }
  }

  lemma CutAvoids(reqs: seq<Req>, i: nat, s: nat)
    requires Sorted(reqs) && AllOk(reqs) && CutAt(reqs, i, s)
    ensures i < |reqs| && !reqs[i].Covers(s)
  {
  }

  /** One merge, seen at one byte. */
  lemma CombinedAfter(front: seq<Req>, last: Req, r: Req, disk: nat -> Byte, b: nat)
    requires AllOk(front) && last.Ok() && r.Ok() && last.sector <= r.sector <= last.End()
    ensures Combined(last, r).Ok() && AllOk(front + [Combined(last, r)]) && AllOk(front + [last])
    ensures var s := b / SECTOR_SIZE;
            After(front + [Combined(last, r)], disk, b) ==
            if r.Covers(s) then r.ByteAt(b)
            else if r.End() <= s < last.End() then After(front, disk, b)
            else After(front + [last], disk, b)
  {
    CombinedByte(last, r, b);
    hide Combined, After, Flatten, AllOk;
    AfterAppend(front, Combined(last, r), disk, b);
    AfterAppend(front, last, disk, b);
  }

  /** A sector that is not lost reads the same after the merged requests as after the originals. */
  lemma {:induction false} MergedAfter(reqs: seq<Req>, n: nat, disk: nat -> Byte, b: nat)
    requires Sorted(reqs) && AllOk(reqs) && n <= |reqs| && !Lost(reqs, n, b / SECTOR_SIZE)
    ensures AllOk(reqs[..n]) && After(Merged(reqs[..n]), disk, b) == After(reqs[..n], disk, b)
    decreases n
  {
    hide Merged, Combined, After, Lost, CutAt, MergesAt, AllOk, Sorted, Req.Covers, Req.ByteAt, Req.Ok;
    PrefixOk(reqs, n);
    if n > 0 {
      var r, s := reqs[n - 1], b / SECTOR_SIZE;
      LostStep(reqs, n - 1, s);
      PrefixOk(reqs, n - 1);
      AfterAppend(reqs[..n - 1], r, disk, b);
      MergedAfterStep(reqs, n - 1, Merged(reqs[..n - 1]), disk, b);
      if !r.Covers(s) { MergedAfter(reqs, n - 1, disk, b); }
    } else {
      MergedNone(reqs);
    }
  }

  lemma PrefixOk(reqs: seq<Req>, n: nat)
    requires Sorted(reqs) && AllOk(reqs) && n <= |reqs|
    ensures Sorted(reqs[..n]) && AllOk(reqs[..n])
    ensures n > 0 ==> reqs[n - 1].Ok() && reqs[..n] == reqs[..n - 1] + [reqs[n - 1]]
  {
  }

  lemma MergedNone(reqs: seq<Req>)
    requires Sorted(reqs) && AllOk(reqs)
    ensures Sorted(reqs[..0]) && AllOk(reqs[..0]) && Merged(reqs[..0]) == [] == reqs[..0]
  {
  }

  /** How the merged list changes at one byte when request `n` is taken in. */
  lemma MergedAfterStep(reqs: seq<Req>, n: nat, out: seq<Req>, disk: nat -> Byte, b: nat)
    requires Sorted(reqs) && AllOk(reqs) && n < |reqs| && out == Merged(reqs[..n])
    ensures reqs[n].Covers(b / SECTOR_SIZE) ==> After(Merged(reqs[..n + 1]), disk, b) == reqs[n].ByteAt(b)
    ensures !reqs[n].Covers(b / SECTOR_SIZE) && !CutAt(reqs, n, b / SECTOR_SIZE) ==>
              After(Merged(reqs[..n + 1]), disk, b) == After(out, disk, b)
  {
    var r := reqs[n];
    MergedStep(reqs, n);
    assert r.Ok() && AllOk(out);
    if MergesAt(reqs, n) {
      var k := |out| - 1;
      var front, last := out[..k], out[k];
      assert out == front + [last] && reqs[..n + 1][n] == r;
      assert AllOk(front) && last.Ok();
      hide Merged, Combined, Flatten, After, AllOk, Sorted;
      CombinedAfter(front, last, r, disk, b);
    } else {
      hide Merged, Combined, Flatten, After, AllOk, Sorted;
      AfterAppend(out, r, disk, b);
    }
  }

  /** Merging is harmless wherever no dropped sector stays unwritten. */
  lemma MergeSafe(reqs: seq<Req>)
    requires Sorted(reqs) && AllOk(reqs) && forall s: nat :: !Lost(reqs, |reqs|, s)
    ensures forall disk, b: nat :: After(Merged(reqs), disk, b) == After(reqs, disk, b)
  {
    assert reqs[..|reqs|] == reqs;
    forall disk, b: nat ensures After(Merged(reqs), disk, b) == After(reqs, disk, b) {
      MergedAfter(reqs, |reqs|, disk, b);
    }
  }

  /** In particular when the requests end in the order in which they start. */
  lemma RisingEndsSafe(reqs: seq<Req>)
    requires Sorted(reqs) && AllOk(reqs)
    requires forall i, j :: 0 <= i < j < |reqs| ==> reqs[i].End() <= reqs[j].End()
    ensures forall disk, b: nat :: After(Merged(reqs), disk, b) == After(reqs, disk, b)
  {
    hide MergesAt, Merged, After;
    MergeSafe(reqs);
  }

  // ---------------------------------------------------------------- what merging loses

  /** The segment limit never stood in the way of a merge. */
  ghost predicate Unlimited(reqs: seq<Req>)
    requires Sorted(reqs) && AllOk(reqs)
  {
    forall i :: 0 < i < |reqs| && reqs[i].sector <= reqs[i - 1].End() ==> MergesAt(reqs, i)
  }

  /** Everything in `out` but its last request ends before the last one starts. */
  predicate LastApart(out: seq<Req>)
  {
    forall k :: 0 <= k && k + 1 < |out| ==> out[k].End() < out[|out| - 1].sector
  }

  lemma {:induction false} MergedApart(reqs: seq<Req>, n: nat)
    requires Sorted(reqs) && AllOk(reqs) && n <= |reqs| && Unlimited(reqs)
    ensures Sorted(reqs[..n]) && AllOk(reqs[..n]) && LastApart(Merged(reqs[..n]))
    decreases n
  {
    hide *;
    PrefixOk(reqs, n);
    if n > 0 {
      MergedApart(reqs, n - 1);
      ApartStep(reqs, n - 1, Merged(reqs[..n - 1]));
    } else {
      MergedNone(reqs);
      NoneApart();
    }
  }

  lemma NoneApart()
    ensures LastApart([])
  {
  }

  lemma ApartStep(reqs: seq<Req>, n: nat, out: seq<Req>)
    requires Sorted(reqs) && AllOk(reqs) && n < |reqs| && out == Merged(reqs[..n]) && LastApart(out)
    requires Unlimited(reqs)
    ensures LastApart(Merged(reqs[..n + 1]))
  {
    MergedStep(reqs, n);
    hide Merged, Sorted, AllOk, MergesAt, Combined;
    if MergesAt(reqs, n) {
      CombinedExtent(reqs, n, out);
      ApartReplace(out, Combined(out[|out| - 1], reqs[n]));
    } else if n > 0 {
      assert reqs[n - 1].End() < reqs[n].sector;
      ApartAppend(out, reqs[n]);
    } else {
      MergedNone(reqs);
    }
  }

  lemma ApartAppend(out: seq<Req>, r: Req)
    requires LastApart(out) && out != [] && out[|out| - 1].End() < r.sector
    ensures LastApart(out + [r])
  {
    forall k | 0 <= k && k + 1 < |out + [r]| ensures (out + [r])[k].End() < r.sector {
      if k + 1 < |out| { assert out[k].End() < out[|out| - 1].sector; }
    }
  }

  lemma ApartReplace(out: seq<Req>, c: Req)
    requires LastApart(out) && out != [] && c.sector == out[|out| - 1].sector
    ensures LastApart(out[..|out| - 1] + [c])
  {
  }

  /** No request of `out` writes sector `s`. */
  predicate Uncovered(out: seq<Req>, s: nat)
  {
    forall k :: 0 <= k < |out| ==> !out[k].Covers(s)
  }

  /** A lost sector is in none of the merged requests. */
  lemma {:induction false} LostUncovered(reqs: seq<Req>, n: nat, s: nat)
    requires Sorted(reqs) && AllOk(reqs) && n <= |reqs| && Unlimited(reqs) && Lost(reqs, n, s)
    ensures Uncovered(Merged(reqs[..n]), s)
    decreases n
  {
    hide *;
    LostNone(reqs, s);
    LostStep(reqs, n - 1, s);
    MergedApart(reqs, n - 1);
    if !CutAt(reqs, n - 1, s) {
      LostUncovered(reqs, n - 1, s);
    }
    PrefixOk(reqs, n - 1);
    UncoveredStep(reqs, n - 1, Merged(reqs[..n - 1]), s);
  }

  lemma LostNone(reqs: seq<Req>, s: nat)
    requires Sorted(reqs) && AllOk(reqs)
    ensures !Lost(reqs, 0, s)
  {
  }

  lemma UncoveredStep(reqs: seq<Req>, n: nat, out: seq<Req>, s: nat)
    requires Sorted(reqs) && AllOk(reqs) && n < |reqs| && out == Merged(reqs[..n]) && LastApart(out)
    requires !reqs[n].Covers(s) && (CutAt(reqs, n, s) || Uncovered(out, s))
    ensures Uncovered(Merged(reqs[..n + 1]), s)
  {
    hide Merged, Sorted, AllOk, MergesAt, Combined, Uncovered, LastApart;
    MergedStep(reqs, n);
    if MergesAt(reqs, n) {
      CombinedExtent(reqs, n, out);
      ReplaceUncovered(out, Combined(out[|out| - 1], reqs[n]), reqs[n], s);
    } else {
      AppendUncovered(out, reqs[n], s);
    }
  }

  lemma AppendUncovered(out: seq<Req>, r: Req, s: nat)
    requires Uncovered(out, s) && !r.Covers(s)
    ensures Uncovered(out + [r], s)
  {
  }

  lemma ReplaceUncovered(out: seq<Req>, c: Req, r: Req, s: nat)
    requires out != [] && LastApart(out) && !r.Covers(s)
    requires var last := out[|out| - 1];
             last.sector == c.sector <= r.sector <= last.End() && c.End() == r.End()
             && (Uncovered(out, s) || r.End() <= s)
    ensures Uncovered(out[..|out| - 1] + [c], s)
  {
    forall k | 0 <= k < |out| - 1 ensures !out[k].Covers(s) {
      assert out[k].End() < out[|out| - 1].sector;
    }
    assert !out[|out| - 1].Covers(s) || r.End() <= s;
  }

  lemma CombinedExtent(reqs: seq<Req>, n: nat, out: seq<Req>)
    requires Sorted(reqs) && AllOk(reqs) && n < |reqs| && out == Merged(reqs[..n]) && MergesAt(reqs, n)
    ensures n > 0 && out != [] && out[|out| - 1].sector <= reqs[n].sector <= out[|out| - 1].End() == reqs[n - 1].End()
    ensures Combined(out[|out| - 1], reqs[n]).sector == out[|out| - 1].sector
    ensures Combined(out[|out| - 1], reqs[n]).End() == reqs[n].End()
  {
    MergedStep(reqs, n);
    assert reqs[..n + 1][n] == reqs[n];
    CombinedIs(out[|out| - 1], reqs[n]);
  }

  lemma {:induction false} AfterUncovered(reqs: seq<Req>, disk: nat -> Byte, b: nat)
    requires AllOk(reqs) && Uncovered(reqs, b / SECTOR_SIZE)
    ensures After(reqs, disk, b) == disk(b)
    decreases |reqs|
  {
    if reqs != [] { AfterUncovered(reqs[..|reqs| - 1], disk, b); }
  }

  /** A byte some request writes does not depend on the disk. */
  lemma {:induction false} AfterCovered(reqs: seq<Req>, d1: nat -> Byte, d2: nat -> Byte, b: nat)
    requires AllOk(reqs) && !Uncovered(reqs, b / SECTOR_SIZE)
    ensures After(reqs, d1, b) == After(reqs, d2, b)
    decreases |reqs|
  {
    var last := reqs[|reqs| - 1];
    if !last.Covers(b / SECTOR_SIZE) {
      var k :| 0 <= k < |reqs| && reqs[k].Covers(b / SECTOR_SIZE);
      assert reqs[..|reqs| - 1][k] == reqs[k];
      AfterCovered(reqs[..|reqs| - 1], d1, d2, b);
    }
  }

  lemma LostWasWritten(reqs: seq<Req>, s: nat)
    requires Sorted(reqs) && AllOk(reqs) && Lost(reqs, |reqs|, s)
    ensures !Uncovered(reqs, s)
  {
    hide MergesAt;
    var i: nat :| DroppedAt(reqs, i, |reqs|, s);
    assert reqs[i - 1].sector <= reqs[i].sector;
    assert reqs[i - 1].Covers(s);
  }

  /** When the segment limit refuses no merge. */
  lemma MergeExactUnlimited(reqs: seq<Req>)
    requires Sorted(reqs) && AllOk(reqs) && Unlimited(reqs)
    ensures (forall disk, b: nat :: After(Merged(reqs), disk, b) == After(reqs, disk, b))
            <==> forall s: nat :: !Lost(reqs, |reqs|, s)
  {
    if forall s: nat :: !Lost(reqs, |reqs|, s) {
      MergeSafe(reqs);
    } else {
      var s: nat :| Lost(reqs, |reqs|, s);
      MergeDiffers(reqs, s);
    }
  }

  lemma MergeDiffers(reqs: seq<Req>, s: nat)
    requires Sorted(reqs) && AllOk(reqs) && Unlimited(reqs) && Lost(reqs, |reqs|, s)
    ensures exists disk, b: nat :: After(Merged(reqs), disk, b) != After(reqs, disk, b)
  {
    hide Merged, Lost, Unlimited, Uncovered, After, Sorted, AllOk;
    var b := s * SECTOR_SIZE;
    assert b / SECTOR_SIZE == s && reqs[..|reqs|] == reqs;
    LostUncovered(reqs, |reqs|, s);
    LostWasWritten(reqs, s);
    var zero: nat -> Byte := (x: nat) => 0;
    var v := After(reqs, zero, b);
    var disk: nat -> Byte := (x: nat) => v + 1;
    AfterUncovered(Merged(reqs), disk, b);
    AfterCovered(reqs, zero, disk, b);
    assert After(Merged(reqs), disk, b) != After(reqs, disk, b);
  }

  // ---------------------------------------------------------------- the condition before the call

  /** How many segments the requests have together. */
  function Segments(reqs: seq<Req>): nat
  {
    if reqs == [] then 0 else Segments(reqs[..|reqs| - 1]) + |reqs[|reqs| - 1].qiov|
  }

  /** No segment taken is empty. */
  lemma {:induction false} TakenFilled(v: Vector, n: nat)
    ensures forall k :: 0 <= k < |Taken(v, n)| ==> Taken(v, n)[k] != []
    decreases |v|
  {
    hide Flatten;
    if v != [] { TakenFilled(v[..|v| - 1], n); }
  }

  lemma {:induction false} TakenCount(v: Vector, n: nat)
    ensures |Taken(v, n)| <= |v|
    decreases |v|
  {
    if v != [] { TakenCount(v[..|v| - 1], n); }
  }

  lemma JoinedSegments(out: seq<Req>, r: Req)
    requires AllOk(out) && r.Ok() && (out != [] ==> out[|out| - 1].sector <= r.sector)
    ensures var next := Joined(out, r);
            |next[|next| - 1].qiov| <= (if out == [] then 0 else |out[|out| - 1].qiov|) + |r.qiov|
  {
    hide AllOk, Flatten, Taken, Req.Ok;
    if out != [] {
      var last := out[|out| - 1];
      TakenCount(last.qiov, (r.sector - last.sector) * SECTOR_SIZE);
      TakenCount(r.qiov, |Flatten(r.qiov)|);
    }
  }

  lemma MergedJoin(reqs: seq<Req>, n: nat)
    requires Sorted(reqs) && AllOk(reqs) && n < |reqs|
    ensures Sorted(reqs[..n]) && AllOk(reqs[..n]) && Sorted(reqs[..n + 1]) && AllOk(reqs[..n + 1]) && reqs[n].Ok()
    ensures var out := Merged(reqs[..n]);
            && (out != [] ==> out[|out| - 1].sector <= reqs[n].sector)
            && Merged(reqs[..n + 1]) == Joined(out, reqs[n])
    ensures Segments(reqs[..n + 1]) == Segments(reqs[..n]) + |reqs[n].qiov|
  {
    hide Joined, CanMerge, Combined, Flatten;
    SortedPrefix(reqs, n);
    SortedPrefix(reqs, n + 1);
    assert reqs[..n + 1][..n] == reqs[..n] && reqs[..n + 1][n] == reqs[n];
    assert n > 0 ==> reqs[..n][n - 1] == reqs[n - 1];
  }

  /** A merged request has no more segments than went into it. */
  lemma {:induction false} MergedSegments(reqs: seq<Req>, n: nat)
    requires Sorted(reqs) && AllOk(reqs) && 0 < n <= |reqs|
    ensures Sorted(reqs[..n]) && AllOk(reqs[..n])
    ensures var out := Merged(reqs[..n]); out != [] && |out[|out| - 1].qiov| <= Segments(reqs[..n])
    decreases n
  {
    hide Merged, Joined, AllOk, Sorted, Req.Ok;
    MergedJoin(reqs, n - 1);
    JoinedSegments(Merged(reqs[..n - 1]), reqs[n - 1]);
    if n > 1 { MergedSegments(reqs, n - 1); } else { MergedNone(reqs); }
  }

  /** No request has more segments than the host accepts. */
  predicate Accepted(reqs: seq<Req>)
  {
    forall i :: 0 <= i < |reqs| ==> |reqs[i].qiov| <= IOV_MAX
  }

  /**
    One more request is joined to the last one exactly when it begins no later than that ends and the host has room.
   */
  lemma JoinedExactly(out: seq<Req>, r: Req)
    requires AllOk(out) && r.Ok() && out != [] && out[|out| - 1].sector <= r.sector
    ensures var next, last := Joined(out, r), out[|out| - 1];
            if r.sector <= last.End() && |last.qiov| + |r.qiov| < IOV_MAX
            then |next| == |out| && next[..|out| - 1] == out[..|out| - 1]
            else next == out + [r]
    ensures Accepted(out) && |r.qiov| <= IOV_MAX ==> Accepted(Joined(out, r))
  {
    JoinedSegments(out, r);
    hide AllOk, Req.Ok, Combined, Flatten;
  }

  /** Merging asks the host for nothing it does not accept. */
  lemma {:induction false} MergedAccepted(reqs: seq<Req>, n: nat)
    requires Sorted(reqs) && AllOk(reqs) && n <= |reqs| && Accepted(reqs)
    ensures Sorted(reqs[..n]) && AllOk(reqs[..n]) && Accepted(Merged(reqs[..n]))
    decreases n
  {
    hide Merged, Joined, AllOk, Sorted, Req.Ok;
    if n == 0 {
      SortedPrefix(reqs, 0);
      MergedNone(reqs);
    } else {
      MergedAccepted(reqs, n - 1);
      MergedJoin(reqs, n - 1);
      if Merged(reqs[..n - 1]) == [] { JoinedFirst(reqs[n - 1]); } else {
        JoinedExactly(Merged(reqs[..n - 1]), reqs[n - 1]);
      }
    }
  }

  lemma JoinedFirst(r: Req)
    requires r.Ok()
    ensures Joined([], r) == [r]
  {
    assert [] + [r] == [r];
  }

  /** The requests before `b` make up the first `k` merged ones, and request `b` begins the next. */
  ghost predicate Splits(reqs: seq<Req>, k: nat, b: nat)
    requires Sorted(reqs) && AllOk(reqs)
  {
    && 0 < b < |reqs| && 0 < k < |Merged(reqs)| && Sorted(reqs[..b]) && AllOk(reqs[..b])
    && Merged(reqs)[..k] == Merged(reqs[..b]) && Merged(reqs)[k].sector == reqs[b].sector
  }

  /**
    Two neighbours in the merged list are apart only where the second begins behind the end of the first, or where the
    first has no room for the request that begins the second.
   */
  lemma {:induction false} ApartOnly(reqs: seq<Req>, n: nat, k: nat) returns (b: nat)
    requires Sorted(reqs) && AllOk(reqs) && n <= |reqs|
    requires 0 < k && Sorted(reqs[..n]) && AllOk(reqs[..n]) && k < |Merged(reqs[..n])|
    ensures Splits(reqs[..n], k, b)
    ensures var before := Merged(reqs[..n])[k - 1];
            before.End() < reqs[b].sector || |before.qiov| + |reqs[b].qiov| >= IOV_MAX
    decreases n
  {
    hide Merged, Joined, AllOk, Sorted, Req.Ok;
    assert n > 0 by { if n == 0 { MergedNone(reqs); } }
    MergedJoin(reqs, n - 1);
    var out, r := Merged(reqs[..n - 1]), reqs[n - 1];
    if out == [] { JoinedFirst(r); }
    JoinedExactly(out, r);
    var next := Merged(reqs[..n]);
    assert reqs[..n][..n - 1] == reqs[..n - 1];
    if k < |out| {
      b := ApartOnly(reqs, n - 1, k);
      JoinedSector(out, r);
      assert reqs[..n - 1][..b] == reqs[..n][..b];
      assert next[..k] == out[..k];
    } else {
      b := n - 1;
      assert next[..k] == out;
    }
  }

  lemma JoinedSector(out: seq<Req>, r: Req)
    requires AllOk(out) && r.Ok() && out != [] && out[|out| - 1].sector <= r.sector
    ensures var next := Joined(out, r); |next| >= |out| && next[|out| - 1].sector == out[|out| - 1].sector
  {
    hide AllOk, Req.Ok, Flatten;
  }

  lemma {:induction false} SegmentsPrefix(reqs: seq<Req>, n: nat)
    requires n <= |reqs|
    ensures Segments(reqs[..n]) <= Segments(reqs)
    decreases |reqs| - n
  {
    if n == |reqs| {
      assert reqs[..n] == reqs;
    } else {
      SegmentsPrefix(reqs, n + 1);
      assert reqs[..n + 1][..n] == reqs[..n];
    }
  }

  /** Enough room for all segments: no merge is refused. */
  lemma RoomUnlimited(reqs: seq<Req>)
    requires Sorted(reqs) && AllOk(reqs) && Segments(reqs) < IOV_MAX
    ensures Unlimited(reqs)
  {
    hide Merged, AllOk, Sorted;
    forall i | 0 < i < |reqs| && reqs[i].sector <= reqs[i - 1].End() ensures MergesAt(reqs, i) {
      MergedSegments(reqs, i);
      SegmentsPrefix(reqs, i + 1);
      assert reqs[..i + 1][..i] == reqs[..i] && reqs[..i + 1][i] == reqs[i];
      MergedStep(reqs, i);
    }
  }

  /** Request `i` ends before sector `s` of the request in front of it, and no later request writes the sector. */
  predicate TailLostAt(reqs: seq<Req>, i: nat, s: nat)
  {
    0 < i < |reqs| && reqs[i].End() <= s < reqs[i - 1].End() && forall j :: i < j < |reqs| ==> !reqs[j].Covers(s)
  }

  /**
    With room for all segments, merging these requests gives the same disk as the originals, whatever was on it before,
    exactly when no sector behind a request's end, but before its predecessor's, stays unwritten.
   */
  lemma MergeExactRoomy(reqs: seq<Req>)
    requires Sorted(reqs) && AllOk(reqs) && Segments(reqs) < IOV_MAX
    ensures (forall disk, b: nat :: After(Merged(reqs), disk, b) == After(reqs, disk, b))
            <==> forall i: nat, s: nat :: !TailLostAt(reqs, i, s)
  {
    RoomUnlimited(reqs);
    hide *;
    MergeExactUnlimited(reqs);
    if forall s: nat :: !Lost(reqs, |reqs|, s) {
      forall i: nat, s: nat ensures !TailLostAt(reqs, i, s) { TailIsLost(reqs, s); }
    } else {
      var s: nat :| Lost(reqs, |reqs|, s);
      TailIsLost(reqs, s);
    }
  }

  lemma TailIsLost(reqs: seq<Req>, s: nat)
    requires Sorted(reqs) && AllOk(reqs) && Unlimited(reqs)
    ensures Lost(reqs, |reqs|, s) <==> exists i: nat :: TailLostAt(reqs, i, s)
  {
    hide MergesAt, AllOk, Sorted;
    if Lost(reqs, |reqs|, s) {
      var i: nat :| DroppedAt(reqs, i, |reqs|, s);
      assert TailLostAt(reqs, i, s);
    }
    if i: nat :| TailLostAt(reqs, i, s) {
      assert MergesAt(reqs, i);
      assert DroppedAt(reqs, i, |reqs|, s);
    }
  }

  // ---------------------------------------------------------------- all data of the same shape

  /** Segments of the same lengths. */
  predicate SameLengths(v: Vector, w: Vector)
  {
    |v| == |w| && forall i :: 0 <= i < |v| ==> |v[i]| == |w[i]|
  }

  /** The same sectors and segments, whatever the data. */
  predicate SameShape(x: Req, y: Req)
  {
    x.sector == y.sector && x.nb == y.nb && SameLengths(x.qiov, y.qiov)
  }

  predicate SameShapes(xs: seq<Req>, ys: seq<Req>)
  {
    |xs| == |ys| && forall i :: 0 <= i < |xs| ==> SameShape(xs[i], ys[i])
  }

  lemma {:induction false} FlattenShape(v: Vector, w: Vector)
    requires SameLengths(v, w)
    ensures |Flatten(v)| == |Flatten(w)|
    decreases |v|
  {
    if v != [] { FlattenShape(v[..|v| - 1], w[..|w| - 1]); }
  }

  lemma {:induction false} TakenShape(v: Vector, w: Vector, n: nat)
    requires SameLengths(v, w)
    ensures SameLengths(Taken(v, n), Taken(w, n))
    decreases |v|
  {
    if v != [] && n != 0 {
      TakenShape(v[..|v| - 1], w[..|w| - 1], n);
      FlattenShape(Taken(v[..|v| - 1], n), Taken(w[..|w| - 1], n));
      assert |v[|v| - 1]| == |w[|w| - 1]|;
    }
  }

  lemma CombinedShape(x: Req, y: Req, r: Req, t: Req)
    requires SameShape(x, y) && SameShape(r, t) && x.sector <= r.sector
    ensures SameShape(Combined(x, r), Combined(y, t))
  {
    hide Taken, Flatten;
    FlattenShape(r.qiov, t.qiov);
    var n, m := (r.sector - x.sector) * SECTOR_SIZE, |Flatten(r.qiov)|;
    TakenShape(x.qiov, y.qiov, n);
    TakenShape(r.qiov, t.qiov, m);
    FlattenShape(Combined(x, r).qiov, Combined(y, t).qiov);
  }

  lemma ShapeOk(xs: seq<Req>, ys: seq<Req>)
    requires Sorted(xs) && AllOk(xs) && SameShapes(xs, ys)
    ensures Sorted(ys) && AllOk(ys)
  {
    hide Flatten;
    forall i | 0 <= i < |ys| ensures ys[i].Ok() {
      FlattenShape(xs[i].qiov, ys[i].qiov);
      assert xs[i].Ok();
    }
  }

  /** Whether and where requests are merged depends on their shape alone. */
  lemma {:induction false} MergedShape(xs: seq<Req>, ys: seq<Req>, n: nat)
    requires Sorted(xs) && AllOk(xs) && Sorted(ys) && AllOk(ys) && SameShapes(xs, ys) && n <= |xs| == |ys|
    ensures Sorted(xs[..n]) && AllOk(xs[..n]) && Sorted(ys[..n]) && AllOk(ys[..n])
    ensures SameShapes(Merged(xs[..n]), Merged(ys[..n]))
    ensures n < |xs| ==> (MergesAt(xs, n) <==> MergesAt(ys, n))
    decreases n
  {
    hide *;
    PrefixOk(xs, n);
    PrefixOk(ys, n);
    if n > 0 {
      MergedShape(xs, ys, n - 1);
      MergedShapeStep(xs, ys, n - 1, Merged(xs[..n - 1]), Merged(ys[..n - 1]));
    } else {
      MergedNone(xs);
      MergedNone(ys);
      NoneShape();
    }
    if n < |xs| { MergesShape(xs, ys, n); }
  }

  lemma NoneShape()
    ensures SameShapes([], [])
  {
  }

  lemma MergedShapeStep(xs: seq<Req>, ys: seq<Req>, n: nat, out: seq<Req>, out': seq<Req>)
    requires Sorted(xs) && AllOk(xs) && Sorted(ys) && AllOk(ys) && SameShapes(xs, ys) && n < |xs| == |ys|
    requires Sorted(xs[..n]) && AllOk(xs[..n]) && Sorted(ys[..n]) && AllOk(ys[..n])
    requires Sorted(xs[..n + 1]) && AllOk(xs[..n + 1]) && Sorted(ys[..n + 1]) && AllOk(ys[..n + 1])
    requires out == Merged(xs[..n]) && out' == Merged(ys[..n]) && SameShapes(out, out')
    requires MergesAt(xs, n) <==> MergesAt(ys, n)
    ensures SameShapes(Merged(xs[..n + 1]), Merged(ys[..n + 1]))
  {
    hide Merged, Sorted, AllOk, Combined, MergesAt, SameLengths;
    MergedStep(xs, n);
    MergedStep(ys, n);
    assert SameShape(xs[n], ys[n]);
    if MergesAt(xs, n) {
      var k := |out| - 1;
      CombinedShape(out[k], out'[k], xs[n], ys[n]);
      SameShapesWith(out[..k], out'[..k], Combined(out[k], xs[n]), Combined(out'[k], ys[n]));
    } else {
      SameShapesWith(out, out', xs[n], ys[n]);
    }
  }

  lemma SameShapesWith(xs: seq<Req>, ys: seq<Req>, x: Req, y: Req)
    requires SameShapes(xs, ys) && SameShape(x, y)
    ensures SameShapes(xs + [x], ys + [y])
  {
    hide SameShape;
  }

  lemma MergesShape(xs: seq<Req>, ys: seq<Req>, n: nat)
    requires Sorted(xs) && AllOk(xs) && Sorted(ys) && AllOk(ys) && SameShapes(xs, ys) && n < |xs| == |ys|
    requires Sorted(xs[..n]) && AllOk(xs[..n]) && Sorted(ys[..n]) && AllOk(ys[..n])
    requires SameShapes(Merged(xs[..n]), Merged(ys[..n]))
    ensures MergesAt(xs, n) <==> MergesAt(ys, n)
  {
    hide Merged, Sorted, AllOk;
    assert xs[..n + 1][n] == xs[n] && ys[..n + 1][n] == ys[n] && SameShape(xs[n], ys[n]);
  }

  /** The merged list without its last request does not depend on the last original's data. */
  lemma FrontShape(xs: seq<Req>, ys: seq<Req>, n: nat)
    requires Sorted(xs) && AllOk(xs) && Sorted(ys) && AllOk(ys) && SameShapes(xs, ys) && n < |xs| == |ys|
    requires xs[..n] == ys[..n]
    ensures Sorted(xs[..n + 1]) && AllOk(xs[..n + 1]) && Sorted(ys[..n + 1]) && AllOk(ys[..n + 1])
    ensures var out, out' := Merged(xs[..n + 1]), Merged(ys[..n + 1]);
            out != [] && out' != [] && out[..|out| - 1] == out'[..|out'| - 1]
  {
    MergedShape(xs, ys, n);
    hide Merged, Sorted, AllOk, Combined, MergesAt, SameShapes;
    SortedPrefix(xs, n + 1);
    SortedPrefix(ys, n + 1);
    MergedStep(xs, n);
    MergedStep(ys, n);
  }

  /** Where a merge drops a sector, the merged list shows what it showed without its last request. */
  lemma CutShows(reqs: seq<Req>, i: nat, disk: nat -> Byte, b: nat)
    requires Sorted(reqs) && AllOk(reqs) && 0 < i < |reqs| && CutAt(reqs, i, b / SECTOR_SIZE)
    ensures Sorted(reqs[..i]) && AllOk(reqs[..i]) && Sorted(reqs[..i + 1]) && AllOk(reqs[..i + 1])
    ensures var out := Merged(reqs[..i]);
            && out != [] && AllOk(out[..|out| - 1])
            && After(Merged(reqs[..i + 1]), disk, b) == After(out[..|out| - 1], disk, b)
  {
    SortedPrefix(reqs, i);
    SortedPrefix(reqs, i + 1);
    MergedStep(reqs, i);
    var out, r := Merged(reqs[..i]), reqs[i];
    CombinedExtent(reqs, i, out);
    var front, last := out[..|out| - 1], out[|out| - 1];
    assert r.Ok() && last.Ok() && AllOk(front);
    hide Merged, Combined, Flatten, After, AllOk, Sorted, MergesAt;
    CombinedAfter(front, last, r, disk, b);
  }

  /** Nothing is cut at a sector after it has been dropped for good. */
  lemma NoLaterCut(reqs: seq<Req>, i: nat, s: nat, n: nat)
    requires Sorted(reqs) && AllOk(reqs) && DroppedAt(reqs, i, |reqs|, s) && i < n < |reqs|
    ensures !reqs[n].Covers(s) && !CutAt(reqs, n, s)
  {
    hide MergesAt;
    assert reqs[n - 1].sector <= reqs[n].sector;
    assert n - 1 > i ==> !reqs[n - 1].Covers(s);
  }

  /** What merging shows at a sector it drops for good does not depend on the request that wrote it. */
  lemma {:induction false} DroppedSame(xs: seq<Req>, ys: seq<Req>, i: nat, n: nat, disk: nat -> Byte, b: nat)
    requires Sorted(xs) && AllOk(xs) && Sorted(ys) && AllOk(ys) && SameShapes(xs, ys) && |xs| == |ys|
    requires DroppedAt(xs, i, |xs|, b / SECTOR_SIZE) && DroppedAt(ys, i, |ys|, b / SECTOR_SIZE)
    requires 0 < i < n <= |xs| && xs[..i - 1] == ys[..i - 1]
    ensures Sorted(xs[..n]) && AllOk(xs[..n]) && Sorted(ys[..n]) && AllOk(ys[..n])
    ensures After(Merged(xs[..n]), disk, b) == After(Merged(ys[..n]), disk, b)
    decreases n
  {
    hide Merged, After, Sorted, AllOk, MergesAt, SameShapes, CutAt, Req.Covers;
    SortedPrefix(xs, n);
    SortedPrefix(ys, n);
    if n == i + 1 {
      CutShows(xs, i, disk, b);
      CutShows(ys, i, disk, b);
      FrontShape(xs, ys, i - 1);
    } else {
      DroppedSame(xs, ys, i, n - 1, disk, b);
      DroppedStays(xs, i, n - 1, disk, b);
      DroppedStays(ys, i, n - 1, disk, b);
    }
  }

  lemma DroppedStays(reqs: seq<Req>, i: nat, n: nat, disk: nat -> Byte, b: nat)
    requires Sorted(reqs) && AllOk(reqs) && DroppedAt(reqs, i, |reqs|, b / SECTOR_SIZE) && i < n < |reqs|
    ensures Sorted(reqs[..n]) && AllOk(reqs[..n]) && Sorted(reqs[..n + 1]) && AllOk(reqs[..n + 1])
    ensures After(Merged(reqs[..n + 1]), disk, b) == After(Merged(reqs[..n]), disk, b)
  {
    hide Merged, After, Sorted, AllOk, MergesAt, DroppedAt, CutAt, Req.Covers;
    SortedPrefix(reqs, n);
    SortedPrefix(reqs, n + 1);
    NoLaterCut(reqs, i, b / SECTOR_SIZE, n);
    MergedAfterStep(reqs, n, Merged(reqs[..n]), disk, b);
  }

  /** The last request that covers a byte decides it. */
  lemma {:induction false} AfterLast(reqs: seq<Req>, j: nat, disk: nat -> Byte, b: nat)
    requires AllOk(reqs) && j < |reqs| && reqs[j].Covers(b / SECTOR_SIZE)
    requires forall k :: j < k < |reqs| ==> !reqs[k].Covers(b / SECTOR_SIZE)
    ensures After(reqs, disk, b) == reqs[j].ByteAt(b)
    decreases |reqs|
  {
    if j < |reqs| - 1 { AfterLast(reqs[..|reqs| - 1], j, disk, b); }
  }

  /** A vector of the same shape, all of whose bytes are `x`. */
  function Refilled(v: Vector, x: Byte): Vector
  {
    seq(|v|, i requires 0 <= i < |v| => seq(|v[i]|, k => x))
  }

  lemma {:induction false} RefilledIs(v: Vector, x: Byte)
    ensures SameLengths(v, Refilled(v, x))
    ensures |Flatten(Refilled(v, x))| == |Flatten(v)|
    ensures forall k :: 0 <= k < |Flatten(v)| ==> Flatten(Refilled(v, x))[k] == x
    decreases |v|
  {
    if v != [] {
      var front := v[..|v| - 1];
      RefilledIs(front, x);
      assert Refilled(v, x)[..|v| - 1] == Refilled(front, x);
    }
  }

  /** The requests with the data of request `j` replaced. */
  function WithData(reqs: seq<Req>, j: nat, x: Byte): seq<Req>
    requires j < |reqs|
  {
    reqs[j := reqs[j].(qiov := Refilled(reqs[j].qiov, x))]
  }

  lemma WithDataIs(reqs: seq<Req>, j: nat, x: Byte)
    requires Sorted(reqs) && AllOk(reqs) && j < |reqs|
    ensures var ys := WithData(reqs, j, x);
            && SameShapes(reqs, ys) && |ys| == |reqs| && Sorted(ys) && AllOk(ys) && ys[..j] == reqs[..j]
            && forall b: nat :: ys[j].Covers(b / SECTOR_SIZE) ==> ys[j].ByteAt(b) == x
  {
    RefilledIs(reqs[j].qiov, x);
    hide Flatten, Refilled;
    var ys := WithData(reqs, j, x);
    assert SameShapes(reqs, ys);
    ShapeOk(reqs, ys);
    assert ys[j].Ok();
  }

  /** With one of two sets of data, at least, a lost sector reads differently. */
  lemma LostMatters(reqs: seq<Req>, s: nat) returns (ys: seq<Req>, disk: nat -> Byte, b: nat)
    requires Sorted(reqs) && AllOk(reqs) && Lost(reqs, |reqs|, s)
    ensures SameShapes(reqs, ys) && Sorted(ys) && AllOk(ys)
    ensures After(Merged(ys), disk, b) != After(ys, disk, b)
  {
    hide Merged, After, Sorted, AllOk, MergesAt, WithData, SameShapes;
    var i: nat :| DroppedAt(reqs, i, |reqs|, s);
    b, disk := s * SECTOR_SIZE, (x: nat) => 0;
    assert b / SECTOR_SIZE == s;
    var y0, y1 := WithData(reqs, i - 1, 0), WithData(reqs, i - 1, 1);
    LostOriginal(reqs, i, s, 0, disk, b);
    LostOriginal(reqs, i, s, 1, disk, b);
    ShapeSwap(reqs, y0, y1);
    assert y0[..|y0|] == y0 && y1[..|y1|] == y1;
    DroppedSame(y0, y1, i, |reqs|, disk, b);
    ys := if After(Merged(y0), disk, b) != 0 then y0 else y1;
  }

  lemma ShapeSwap(xs: seq<Req>, ys: seq<Req>, zs: seq<Req>)
    requires SameShapes(xs, ys) && SameShapes(xs, zs)
    ensures SameShapes(ys, zs)
  {
    forall i | 0 <= i < |ys| ensures SameShape(ys[i], zs[i]) {
      assert SameShape(xs[i], ys[i]) && SameShape(xs[i], zs[i]);
    }
  }

  lemma LostOriginal(reqs: seq<Req>, i: nat, s: nat, x: Byte, disk: nat -> Byte, b: nat)
    requires Sorted(reqs) && AllOk(reqs) && DroppedAt(reqs, i, |reqs|, s) && b / SECTOR_SIZE == s
    ensures 0 < i <= |reqs|
    ensures var ys := WithData(reqs, i - 1, x);
            && SameShapes(reqs, ys) && |ys| == |reqs| && Sorted(ys) && AllOk(ys) && ys[..i - 1] == reqs[..i - 1]
            && DroppedAt(ys, i, |ys|, s) && After(ys, disk, b) == x
  {
    hide After, Flatten, MergesAt, Refilled, WithData, Sorted, AllOk, SameShapes, Req.ByteAt, Req.Ok;
    WithDataIs(reqs, i - 1, x);
    var ys := WithData(reqs, i - 1, x);
    DroppedShape(reqs, ys, i, s);
    DroppedCovers(ys, i, s);
    AfterLast(ys, i - 1, disk, b);
  }

  lemma DroppedCovers(reqs: seq<Req>, i: nat, s: nat)
    requires Sorted(reqs) && AllOk(reqs) && DroppedAt(reqs, i, |reqs|, s)
    ensures 0 < i < |reqs| && reqs[i - 1].Covers(s) && forall k :: i - 1 < k < |reqs| ==> !reqs[k].Covers(s)
  {
    hide MergesAt, AllOk;
    assert reqs[i - 1].sector <= reqs[i].sector;
  }

  lemma DroppedShape(xs: seq<Req>, ys: seq<Req>, i: nat, s: nat)
    requires Sorted(xs) && AllOk(xs) && Sorted(ys) && AllOk(ys) && SameShapes(xs, ys) && |xs| == |ys|
    requires DroppedAt(xs, i, |xs|, s)
    ensures DroppedAt(ys, i, |ys|, s)
  {
    hide MergesAt, Sorted, AllOk, SameLengths;
    MergedShape(xs, ys, i);
    assert SameShape(xs[i], ys[i]) && SameShape(xs[i - 1], ys[i - 1]);
    forall j | i < j < |ys| ensures !ys[j].Covers(s) {
      assert SameShape(xs[j], ys[j]) && !xs[j].Covers(s);
    }
  }

  /** Merging requests of this shape is right for all data and all disks. */
  ghost predicate AlwaysSame(reqs: seq<Req>)
    requires Sorted(reqs) && AllOk(reqs)
  {
    forall ys, disk, b: nat :: SameShapes(reqs, ys) && Sorted(ys) && AllOk(ys) ==>
      After(Merged(ys), disk, b) == After(ys, disk, b)
  }

  /**
    Merging requests of a given shape, that is, with given sectors and segment lengths, gives the same disk as the
    originals for all data and all disks exactly when every sector a merge drops is written again by a later request.
    Which merges the segment limit refuses is part of the shape.
   */
  lemma MergeExact(reqs: seq<Req>)
    requires Sorted(reqs) && AllOk(reqs)
    ensures AlwaysSame(reqs) <==> forall s: nat :: !Lost(reqs, |reqs|, s)
  {
    if forall s: nat :: !Lost(reqs, |reqs|, s) {
      forall ys, disk, b: nat | SameShapes(reqs, ys) && Sorted(ys) && AllOk(ys)
        ensures After(Merged(ys), disk, b) == After(ys, disk, b)
      {
        NeverLost(reqs, ys);
        MergeSafe(ys);
      }
    } else {
      var s: nat :| Lost(reqs, |reqs|, s);
      var ys, disk, b := LostMatters(reqs, s);
      hide Merged, After, Lost, Sorted, AllOk;
      assert !AlwaysSame(reqs);
    }
  }

  lemma NeverLost(xs: seq<Req>, ys: seq<Req>)
    requires Sorted(xs) && AllOk(xs) && Sorted(ys) && AllOk(ys) && SameShapes(xs, ys)
    requires forall s: nat :: !Lost(xs, |xs|, s)
    ensures forall s: nat :: !Lost(ys, |ys|, s)
  {
    hide Sorted, AllOk, Lost;
    assert SameShapes(ys, xs);
    forall s: nat ensures !Lost(ys, |ys|, s) {
      LostShape(ys, xs, s);
    }
  }

  /** What is lost depends on the shape alone. */
  lemma LostShape(xs: seq<Req>, ys: seq<Req>, s: nat)
    requires Sorted(xs) && AllOk(xs) && Sorted(ys) && AllOk(ys) && SameShapes(xs, ys)
    ensures Lost(xs, |xs|, s) ==> Lost(ys, |ys|, s)
  {
    hide Sorted, AllOk, CutAt;
    if i: nat :| DroppedAt(xs, i, |xs|, s) {
      DroppedShape(xs, ys, i, s);
    }
  }

  /** A write of three sectors and one inside it: the third sector of the first never reaches the disk. */
  lemma MergeLosesTail()
    requires 3 <= IOV_MAX
    ensures var x, y := seq(3 * SECTOR_SIZE, i => 1), seq(SECTOR_SIZE, i => 2);
            var reqs := [Req(0, 3, [x]), Req(1, 1, [y])];
            && Sorted(reqs) && AllOk(reqs)
            && exists disk, b: nat :: After(Merged(reqs), disk, b) != After(reqs, disk, b)
  {
    var x, y := seq(3 * SECTOR_SIZE, i => 1), seq(SECTOR_SIZE, i => 2);
    var reqs := [Req(0, 3, [x]), Req(1, 1, [y])];
    FlattenOne([], x);
    FlattenOne([], y);
    assert [] + [x] == [x] && [] + [y] == [y];
    assert reqs[..1] == [reqs[0]] && reqs[..2] == reqs && reqs[..1][..0] == [];
    assert Merged(reqs[..1]) == [reqs[0]];
    assert MergesAt(reqs, 1);
    assert DroppedAt(reqs, 1, 2, 2);
    hide Merged, After, MergesAt;
    MergeDiffers(reqs, 2);
  }

  // ---------------------------------------------------------------- completion

  /** The first failure among the results, or success. */
  function FirstError(results: seq<int>): int
  {
    if results == [] then 0
    else if FirstError(results[..|results| - 1]) != 0 then FirstError(results[..|results| - 1])
    else if results[|results| - 1] < 0 then results[|results| - 1]
    else 0
  }

  /** Callbacks 0 to n - 1, each once, each with error `e`. */
  function Calls(n: nat, e: int): seq<(nat, int)>
  {
    seq(n, i => (i, e))
  }

  /** A MultiwriteCB; `fired` records the user callbacks made, by number and error. */
  class MultiwriteCB {
    var error: int
    var numRequests: nat
    const numCallbacks: nat
    var fired: seq<(nat, int)>
    ghost var results: seq<int>

    ghost predicate Valid()
      reads this
    {
      && error == FirstError(results)
      && fired == if numRequests == 0 then Calls(numCallbacks, error) else []
    }

    /** Callbacks for all originals, and the number of merged requests that were submitted. */
    constructor (callbacks: nat, requests: nat)
      requires 0 < requests <= callbacks
      ensures Valid() && numCallbacks == callbacks && numRequests == requests && results == []
    {
      error, numRequests, numCallbacks, fired, results := 0, requests, callbacks, [], [];
    }

    /** multiwrite_cb: one merged request has completed with `ret`. */
    method Complete(ret: int)
      requires Valid() && numRequests > 0
      modifies this
      ensures Valid() && results == old(results) + [ret] && numRequests == old(numRequests) - 1
    {
      assert (results + [ret])[..|results|] == results;
      if ret < 0 && error == 0 {
        error := ret;
      }
      results := results + [ret];
      numRequests := numRequests - 1;
      if numRequests == 0 {
        UserCallbacks();
      }
    }

    /** multiwrite_user_cb. */
    method UserCallbacks()
      requires fired == []
      modifies `fired
      ensures fired == Calls(numCallbacks, error)
    {
      for i := 0 to numCallbacks
        invariant fired == Calls(i, error)
      {
        fired := fired + [(i, error)];
      }
    }
  }

  /** Whatever the order of completion, every original callback fires once, at the end, with the first error. */
  method CompleteAll(callbacks: nat, results: seq<int>) returns (fired: seq<(nat, int)>)
    requires 0 < |results| <= callbacks
    ensures |fired| == callbacks && forall i :: 0 <= i < callbacks ==> fired[i] == (i, FirstError(results))
  {
    var mcb := new MultiwriteCB(callbacks, |results|);
    for i := 0 to |results|
      invariant mcb.Valid() && fresh(mcb) && mcb.results == results[..i] && mcb.numRequests == |results| - i
      invariant mcb.numCallbacks == callbacks
      invariant i < |results| ==> mcb.fired == []
    {
      assert results[..i + 1] == results[..i] + [results[i]];
      mcb.Complete(results[i]);
    }
    assert results[..|results|] == results;
    fired := mcb.fired;
  }

  lemma {:induction false} FirstErrorIs(results: seq<int>)
    ensures FirstError(results) == 0 <==> forall i :: 0 <= i < |results| ==> results[i] >= 0
    ensures FirstError(results) != 0 ==>
              exists i :: 0 <= i < |results| && results[i] == FirstError(results)
                          && forall j :: 0 <= j < i ==> results[j] >= 0
  {
    if results != [] {
      var front := results[..|results| - 1];
      FirstErrorIs(front);
      if FirstError(front) != 0 {
        var i :| 0 <= i < |front| && front[i] == FirstError(front) && forall j :: 0 <= j < i ==> front[j] >= 0;
        assert results[i] == FirstError(results);
        assert forall j :: 0 <= j < i ==> results[j] == front[j];
      } else {
        assert forall j :: 0 <= j < |front| ==> results[j] == front[j];
      }
    }
  }

  /**
    bdrv_aio_multiwrite. Without a medium nothing is submitted and no callback fires. Otherwise the merged requests are
    submitted, and when each has completed, in whatever order and with whatever result, every original callback has
    fired once with the first error.
   */
  method AioMultiwrite(medium: bool, reqs: array<Req>, results: seq<int>)
    returns (ret: int, n: nat, fired: seq<(nat, int)>)
    requires Sorted(reqs[..]) && AllOk(reqs[..]) && |results| == |Merged(reqs[..])|
    modifies reqs
    ensures ret == if medium then 0 else -1
    ensures !medium ==> n == 0 && fired == [] && reqs[..] == old(reqs[..])
    ensures medium ==> n <= reqs.Length && reqs[..n] == Merged(old(reqs[..]))
    ensures medium && old(Accepted(reqs[..])) ==> Accepted(reqs[..n])
    ensures medium ==> |fired| == reqs.Length && forall i :: 0 <= i < |fired| ==> fired[i] == (i, FirstError(results))
  {
    if !medium {
      return -1, 0, [];
    }
    ret := 0;
    if reqs.Length == 0 {
      n, fired := 0, [];
      return;
    }
    n := Merge(reqs);
    fired := CompleteAll(reqs.Length, results);
  }
}
