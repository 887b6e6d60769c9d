/**
  The multi-level page table of exec.c: `phys_map_node_*`, `phys_page_set_level`,
  `phys_page_set` and `phys_page_find`.

  All address spaces share one pool of nodes.  Each node is given a ghost
  `Place` when it is allocated: the root it serves, its level, and the block of
  pages it covers.  A walk for a page of a root only meets nodes whose place
  matches that root and page, so an update in one place cannot disturb a lookup
  in another; this is how the nodes form a forest.
 */
module PhysMap {
  import opened Common
  import opened Arithmetic

  type Radix = n: nat | 2 <= n witness 2
  type Positive = n: nat | 1 <= n witness 1

  const L2_SIZE: Radix
  const P_L2_LEVELS: Positive
  const NODE_NIL: nat := 0x7fff
  const SECTION_UNASSIGNED: nat := 0

  type RootId = nat

  datatype Entry = Entry(isLeaf: bool, ptr: nat)

  const NIL_ENTRY := Entry(false, NODE_NIL)

  type Node = n: seq<Entry> | |n| == L2_SIZE witness seq(L2_SIZE, i => NIL_ENTRY)

  // ---------------------------------------------------------------- page arithmetic

  /** Pages covered by one entry of a node at `level`. */
  function Step(level: nat): (s: nat)
    ensures 1 <= s
  {
    if level == 0 then 1 else L2_SIZE * Step(level - 1)
  }

  /** The block of Step(level) pages that `page` lies in. */
  function Block(page: nat, level: nat): nat { page / Step(level) }

  function Digit(page: nat, level: nat): (k: nat)
    ensures k < L2_SIZE
  {
    Block(page, level) % L2_SIZE
  }

  lemma BlockBounds(page: nat, level: nat)
    ensures Block(page, level) * Step(level) <= page < (Block(page, level) + 1) * Step(level)
  {
    MulDistribute(Block(page, level), 1, Step(level));
  }

  lemma BlockIs(page: nat, level: nat, b: nat)
    requires b * Step(level) <= page < (b + 1) * Step(level)
    ensures Block(page, level) == b
  {
    MulDistribute(b, 1, Step(level));
    Quotient(page, Step(level), b, page - b * Step(level));
  }

  lemma BlockUp(page: nat, level: nat)
    ensures Block(page, level + 1) == Block(page, level) / L2_SIZE
    ensures Block(page, level) == Block(page, level + 1) * L2_SIZE + Digit(page, level)
  {
    DivDiv(page, Step(level), L2_SIZE);
  }

  // ---------------------------------------------------------------- lookup

  /** Where a lookup ends: the section it finds, and whether an entry above the bottom level gave the answer. */
  datatype Found = Found(section: nat, upper: bool)

  /** phys_page_find from an entry with `levels` levels below it. */
  function Walk(nodes: seq<Node>, e: Entry, page: nat, levels: nat): Found
    decreases levels
  {
    if e.isLeaf || levels == 0 then
      Found(e.ptr, levels > 0)
    else if e.ptr == NODE_NIL || e.ptr >= |nodes| then
      Found(SECTION_UNASSIGNED, false)
    else
      Walk(nodes, nodes[e.ptr][Digit(page, levels - 1)], page, levels - 1)
  }

  // ---------------------------------------------------------------- the forest invariant

  datatype Place = Place(root: RootId, level: nat, prefix: nat)

  /** The node at `pl` is on the path of `page` under `root`. */
  predicate Serves(pl: Place, root: RootId, page: nat)
  {
    pl.root == root && Block(page, pl.level + 1) == pl.prefix
  }

  /** A non-leaf entry for the pages of `pl` is empty or points to the node of that place. */
  predicate EntryAt(e: Entry, nodes: seq<Node>, places: seq<Place>, pl: Place)
    requires |places| == |nodes|
  {
    !e.isLeaf && (e.ptr != NODE_NIL ==> e.ptr < |nodes| && places[e.ptr] == pl)
  }

  predicate CellOk(nodes: seq<Node>, places: seq<Place>, n: nat, k: nat)
    requires |places| == |nodes| && n < |nodes| && k < L2_SIZE
  {
    var e, pl := nodes[n][k], places[n];
    e.isLeaf || (pl.level > 0 && EntryAt(e, nodes, places, Place(pl.root, pl.level - 1, pl.prefix * L2_SIZE + k)))
  }

  ghost predicate Forest(nodes: seq<Node>, places: seq<Place>)
  {
    && |places| == |nodes| <= NODE_NIL
    && forall n, k :: 0 <= n < |nodes| && 0 <= k < L2_SIZE ==> CellOk(nodes, places, n, k)
  }

  /** Every entry a lookup of `page` under `root` could read is the same in `after`, from levels below `top`. */
  ghost predicate Untouched(nodes: seq<Node>, places: seq<Place>, after: seq<Node>, root: RootId, page: nat, top: nat)
    requires |places| == |nodes| <= |after|
  {
    forall n :: 0 <= n < |nodes| && Serves(places[n], root, page) && places[n].level < top ==>
      after[n][Digit(page, places[n].level)] == nodes[n][Digit(page, places[n].level)]
  }

  lemma {:induction false} WalkUntouched(nodes: seq<Node>, places: seq<Place>, after: seq<Node>, e: Entry,
                                         root: RootId, page: nat, levels: nat)
    requires Forest(nodes, places) && |nodes| <= |after|
    requires levels > 0 ==> e.isLeaf || EntryAt(e, nodes, places, Place(root, levels - 1, Block(page, levels)))
    requires Untouched(nodes, places, after, root, page, levels)
    ensures Walk(after, e, page, levels) == Walk(nodes, e, page, levels)
    decreases levels
  {
    if levels > 0 && !e.isLeaf && e.ptr != NODE_NIL {
      var k := Digit(page, levels - 1);
      BlockUp(page, levels - 1);
      assert CellOk(nodes, places, e.ptr, k);
      assert Serves(places[e.ptr], root, page);
      WalkUntouched(nodes, places, after, nodes[e.ptr][k], root, page, levels - 1);
    }
  }

  // ---------------------------------------------------------------- what an update does

  /** The nodes together with the places they were allocated for. */
  datatype Pool = Pool(nodes: seq<Node>, places: seq<Place>) {
    ghost predicate Ok() { Forest(nodes, places) }

    ghost predicate GrowsTo(after: Pool)
    {
      |nodes| <= |after.nodes| && places <= after.places
    }
  }

  /** One page, before and after its range was set to `leaf`; a small range is only set at the bottom level. */
  predicate PageSet(before: Found, after: Found, inside: bool, leaf: nat, small: bool)
  {
    if inside then after.section == leaf && (small ==> !after.upper) else after == before
  }

  /** Among the pages of `block` under one entry, exactly [lo, hi) now lead to `leaf`. */
  ghost predicate RangeSet(p0: Pool, e0: Entry, p1: Pool, e1: Entry, levels: nat, block: nat,
                           lo: nat, hi: nat, leaf: nat, small: bool)
  {
    forall page: nat :: Block(page, levels) == block ==>
      PageSet(Walk(p0.nodes, e0, page, levels), Walk(p1.nodes, e1, page, levels), lo <= page < hi, leaf, small)
  }

  /** The same, seen through the cells of node `n`. */
  ghost predicate NodeSet(p0: Pool, p1: Pool, n: nat, level: nat, prefix: nat, lo: nat, hi: nat, leaf: nat, small: bool)
    requires n < |p0.nodes| && n < |p1.nodes|
  {
    forall page: nat :: Block(page, level + 1) == prefix ==>
      PageSet(Walk(p0.nodes, p0.nodes[n][Digit(page, level)], page, level),
              Walk(p1.nodes, p1.nodes[n][Digit(page, level)], page, level), lo <= page < hi, leaf, small)
  }

  /** No entry on the path of a page outside `block` of `root` changed. */
  ghost predicate Elsewhere(p0: Pool, p1: Pool, root: RootId, levels: nat, block: nat)
    requires p0.Ok() && |p0.nodes| <= |p1.nodes|
  {
    forall d: RootId, page: nat :: !(d == root && Block(page, levels) == block) ==>
      Untouched(p0.nodes, p0.places, p1.nodes, d, page, P_L2_LEVELS)
  }

  /** A freshly allocated node: empty, or full of unassigned leaves at the bottom level. */
  function FreshNode(level: nat): Node
  {
    seq(L2_SIZE, i => if level == 0 then Entry(true, SECTION_UNASSIGNED) else NIL_ENTRY)
  }

  function Allocated(p: Pool, pl: Place): Pool
  {
    Pool(p.nodes + [FreshNode(pl.level)], p.places + [pl])
  }

  lemma AllocatedOk(p: Pool, pl: Place)
    requires p.Ok() && |p.nodes| < NODE_NIL
    ensures Allocated(p, pl).Ok()
  {
    var q := Allocated(p, pl);
    forall n, k | 0 <= n < |q.nodes| && 0 <= k < L2_SIZE ensures CellOk(q.nodes, q.places, n, k) {
      if n < |p.nodes| {
        assert CellOk(p.nodes, p.places, n, k);
      }
    }
  }

  /** The new node answers for its pages as the empty entry did. */
  lemma AllocatedWalk(p: Pool, pl: Place, page: nat)
    requires p.Ok() && |p.nodes| < NODE_NIL
    ensures var q := Allocated(p, pl);
            Walk(q.nodes, q.nodes[|p.nodes|][Digit(page, pl.level)], page, pl.level)
            == Walk(p.nodes, NIL_ENTRY, page, pl.level + 1)
  {
  }

  function Written(p: Pool, n: nat, k: nat, e: Entry): Pool
    requires n < |p.nodes| && k < L2_SIZE
  {
    Pool(p.nodes[n := p.nodes[n][k := e]], p.places)
  }

  lemma WrittenOk(p: Pool, n: nat, k: nat, e: Entry)
    requires p.Ok() && n < |p.nodes| && k < L2_SIZE
    requires var pl := p.places[n];
             e.isLeaf || (pl.level > 0
                          && EntryAt(e, p.nodes, p.places, Place(pl.root, pl.level - 1, pl.prefix * L2_SIZE + k)))
    ensures Written(p, n, k, e).Ok()
  {
    var q := Written(p, n, k, e);
    forall m, j | 0 <= m < |q.nodes| && 0 <= j < L2_SIZE ensures CellOk(q.nodes, q.places, m, j) {
      assert CellOk(p.nodes, p.places, m, j);
    }
  }

  /** A write to cell `k` of node `n` is on the path of the pages of one block only. */
  lemma WrittenElsewhere(p: Pool, n: nat, k: nat, e: Entry, d: RootId, page: nat)
    requires p.Ok() && n < |p.nodes| && k < L2_SIZE
    requires var pl := p.places[n];
             !(d == pl.root && Block(page, pl.level) == pl.prefix * L2_SIZE + k)
    ensures Untouched(p.nodes, p.places, Written(p, n, k, e).nodes, d, page, P_L2_LEVELS)
  {
    BlockUp(page, p.places[n].level);
  }

  /** The block of pages under cell `k` of a node. */
  function CellBlock(pl: Place, k: nat): nat { pl.prefix * L2_SIZE + k }

  /** Pages [lo, hi) under the entry for `pl` were set to `leaf`, and nothing else. */
  ghost predicate EntrySet(p0: Pool, e0: Entry, p1: Pool, e1: Entry, pl: Place, lo: nat, hi: nat, leaf: nat,
                           small: bool)
    requires p0.Ok()
  {
    && p1.Ok()
    && p0.GrowsTo(p1)
    && EntryAt(e1, p1.nodes, p1.places, pl)
    && Elsewhere(p0, p1, pl.root, pl.level + 1, pl.prefix)
    && RangeSet(p0, e0, p1, e1, pl.level + 1, pl.prefix, lo, hi, leaf, small)
  }

  /** Pages [lo, hi) under cell `k` of node `n` were set to `leaf`, and nothing else. */
  ghost predicate CellSet(p0: Pool, p1: Pool, n: nat, k: nat, lo: nat, hi: nat, leaf: nat, small: bool)
    requires p0.Ok() && n < |p0.nodes| && k < L2_SIZE
  {
    var pl := p0.places[n];
    && p1.Ok()
    && p0.GrowsTo(p1)
    && Elsewhere(p0, p1, pl.root, pl.level, CellBlock(pl, k))
    && RangeSet(p0, p0.nodes[n][k], p1, p1.nodes[n][k], pl.level, CellBlock(pl, k), lo, hi, leaf, small)
  }

  /** Setting a whole block with one leaf entry. */
  lemma LeafCell(p: Pool, n: nat, k: nat, lo: nat, hi: nat, leaf: nat, small: bool)
    requires p.Ok() && n < |p.nodes| && k < L2_SIZE
    requires var pl := p.places[n];
             && lo == CellBlock(pl, k) * Step(pl.level) && hi == lo + Step(pl.level)
             && (small ==> pl.level == 0)
    ensures CellSet(p, Written(p, n, k, Entry(true, leaf)), n, k, lo, hi, leaf, small)
  {
    var pl, e := p.places[n], Entry(true, leaf);
    var b := CellBlock(pl, k);
    var q := Written(p, n, k, e);
    WrittenOk(p, n, k, e);
    forall d: RootId, page: nat | !(d == pl.root && Block(page, pl.level) == b)
      ensures Untouched(p.nodes, p.places, q.nodes, d, page, P_L2_LEVELS)
    {
      WrittenElsewhere(p, n, k, e, d, page);
    }
    forall page: nat | Block(page, pl.level) == b
      ensures PageSet(Walk(p.nodes, p.nodes[n][k], page, pl.level), Walk(q.nodes, e, page, pl.level),
                      lo <= page < hi, leaf, small)
    {
      BlockBounds(page, pl.level);
      MulDistribute(b, 1, Step(pl.level));
    }
  }

  /** Setting part of a block by descending into it, then storing the entry back. */
  lemma DescendedCell(p0: Pool, n: nat, k: nat, p1: Pool, e1: Entry, lo: nat, hi: nat, leaf: nat, small: bool)
    requires p0.Ok() && n < |p0.nodes| && k < L2_SIZE && 0 < p0.places[n].level < P_L2_LEVELS
    requires var pl := p0.places[n];
             EntrySet(p0, p0.nodes[n][k], p1, e1, Place(pl.root, pl.level - 1, CellBlock(pl, k)), lo, hi, leaf, small)
    ensures CellSet(p0, Written(p1, n, k, e1), n, k, lo, hi, leaf, small)
  {
    var pl := p0.places[n];
    var b := CellBlock(pl, k);
    var q := Written(p1, n, k, e1);
    WrittenOk(p1, n, k, e1);
    forall d: RootId, page: nat | !(d == pl.root && Block(page, pl.level) == b)
      ensures Untouched(p0.nodes, p0.places, q.nodes, d, page, P_L2_LEVELS)
    {
      WrittenElsewhere(p1, n, k, e1, d, page);
      assert Untouched(p0.nodes, p0.places, p1.nodes, d, page, P_L2_LEVELS);
      forall m | 0 <= m < |p0.nodes| && Serves(p0.places[m], d, page) && p0.places[m].level < P_L2_LEVELS
        ensures q.nodes[m][Digit(page, p0.places[m].level)] == p0.nodes[m][Digit(page, p0.places[m].level)]
      {
        assert p1.places[m] == p0.places[m];
      }
    }
    forall page: nat | Block(page, pl.level) == b
      ensures PageSet(Walk(p0.nodes, p0.nodes[n][k], page, pl.level), Walk(q.nodes, e1, page, pl.level),
                      lo <= page < hi, leaf, small)
    {
      assert Untouched(p1.nodes, p1.places, q.nodes, pl.root, page, pl.level);
      WalkUntouched(p1.nodes, p1.places, q.nodes, e1, pl.root, page, pl.level);
    }
  }

  /** A page under another cell of the node reads the same entries after cell `k` was set. */
  lemma OtherCell(p0: Pool, p1: Pool, n: nat, k: nat, lo: nat, hi: nat, leaf: nat, small: bool, page: nat)
    requires p0.Ok() && n < |p0.nodes| && k < L2_SIZE && p0.places[n].level < P_L2_LEVELS
    requires CellSet(p0, p1, n, k, lo, hi, leaf, small)
    requires Serves(p0.places[n], p0.places[n].root, page) && Digit(page, p0.places[n].level) != k
    ensures var level := p0.places[n].level;
            var j := Digit(page, level);
            && p1.nodes[n][j] == p0.nodes[n][j]
            && Walk(p1.nodes, p1.nodes[n][j], page, level) == Walk(p0.nodes, p0.nodes[n][j], page, level)
  {
    var pl := p0.places[n];
    var j := Digit(page, pl.level);
    BlockUp(page, pl.level);
    assert Untouched(p0.nodes, p0.places, p1.nodes, pl.root, page, P_L2_LEVELS);
    assert CellOk(p0.nodes, p0.places, n, j);
    WalkUntouched(p0.nodes, p0.places, p1.nodes, p0.nodes[n][j], pl.root, page, pl.level);
  }

  /** The loop over the cells of a node extends the pages that are set from [lo, mid) to [lo, hi). */
  lemma NextCell(p0: Pool, p1: Pool, p2: Pool, n: nat, k: nat, lo: nat, mid: nat, hi: nat, leaf: nat, small: bool)
    requires p0.Ok() && p1.Ok() && p0.GrowsTo(p1) && n < |p0.nodes| && k < L2_SIZE
    requires var pl := p0.places[n];
             && pl.level < P_L2_LEVELS
             && Elsewhere(p0, p1, pl.root, pl.level + 1, pl.prefix)
             && NodeSet(p0, p1, n, pl.level, pl.prefix, lo, mid, leaf, small)
    requires CellSet(p1, p2, n, k, mid, hi, leaf, small) && lo <= mid <= hi
    requires forall page: nat :: mid <= page < hi ==> Block(page, p0.places[n].level) == CellBlock(p0.places[n], k)
    ensures p2.Ok() && p0.GrowsTo(p2)
    ensures var pl := p0.places[n];
            && Elsewhere(p0, p2, pl.root, pl.level + 1, pl.prefix)
            && NodeSet(p0, p2, n, pl.level, pl.prefix, lo, hi, leaf, small)
  {
    var pl := p0.places[n];
    forall d: RootId, page: nat | !(d == pl.root && Block(page, pl.level + 1) == pl.prefix)
      ensures Untouched(p0.nodes, p0.places, p2.nodes, d, page, P_L2_LEVELS)
    {
      BlockUp(page, pl.level);
      assert Untouched(p0.nodes, p0.places, p1.nodes, d, page, P_L2_LEVELS);
      CellBlockUp(pl, k, page);
      assert Untouched(p1.nodes, p1.places, p2.nodes, d, page, P_L2_LEVELS);
      forall m | 0 <= m < |p0.nodes| && Serves(p0.places[m], d, page) && p0.places[m].level < P_L2_LEVELS
        ensures p2.nodes[m][Digit(page, p0.places[m].level)] == p0.nodes[m][Digit(page, p0.places[m].level)]
      {
        assert p1.places[m] == p0.places[m];
      }
    }
    forall page: nat | Block(page, pl.level + 1) == pl.prefix
      ensures PageSet(Walk(p0.nodes, p0.nodes[n][Digit(page, pl.level)], page, pl.level),
                      Walk(p2.nodes, p2.nodes[n][Digit(page, pl.level)], page, pl.level), lo <= page < hi, leaf, small)
    {
      BlockUp(page, pl.level);
      if Digit(page, pl.level) != k {
        OtherCell(p1, p2, n, k, mid, hi, leaf, small, page);
      }
    }
  }

  /** A page of a cell is a page of its node. */
  lemma CellBlockUp(pl: Place, k: nat, page: nat)
    requires k < L2_SIZE
    ensures Block(page, pl.level) == CellBlock(pl, k) <==>
            Block(page, pl.level + 1) == pl.prefix && Digit(page, pl.level) == k
  {
    BlockUp(page, pl.level);
    if Block(page, pl.level) == CellBlock(pl, k) {
      Quotient(Block(page, pl.level), L2_SIZE, pl.prefix, k);
    }
  }

  // ---------------------------------------------------------------- node budget

  function NodeStart(pl: Place): nat { pl.prefix * Step(pl.level + 1) }

  function NodeEnd(pl: Place): nat { (pl.prefix + 1) * Step(pl.level + 1) }

  function ChildPlace(pl: Place, k: nat): Place
    requires 0 < pl.level
  {
    Place(pl.root, pl.level - 1, CellBlock(pl, k))
  }

  function CellStart(pl: Place, k: nat): nat { CellBlock(pl, k) * Step(pl.level) }

  function CellEnd(pl: Place, k: nat): nat { (CellBlock(pl, k) + 1) * Step(pl.level) }

  /** Nodes needed to set [index, index + nb) under an entry: one per level for each ragged edge. */
  function NodeCost(pl: Place, index: nat, nb: nat): nat
  {
    if index == NodeStart(pl) || NodeEnd(pl) <= index + nb then pl.level + 1 else 2 * pl.level + 1
  }

  function CellCost(pl: Place, k: nat, index: nat, nb: nat): nat
  {
    if pl.level == 0 || (index == CellStart(pl, k) && CellEnd(pl, k) <= index + nb) then 0
    else NodeCost(ChildPlace(pl, k), index, nb)
  }

  lemma CellExtent(pl: Place, k: nat, index: nat)
    requires Block(index, pl.level) == CellBlock(pl, k)
    ensures CellStart(pl, k) <= index < CellEnd(pl, k) == CellStart(pl, k) + Step(pl.level)
    ensures index % Step(pl.level) == 0 <==> index == CellStart(pl, k)
    ensures forall page: nat :: index <= page < CellEnd(pl, k) ==> Block(page, pl.level) == CellBlock(pl, k)
  {
    BlockBounds(index, pl.level);
    MulDistribute(CellBlock(pl, k), 1, Step(pl.level));
    forall page: nat | index <= page < CellEnd(pl, k) ensures Block(page, pl.level) == CellBlock(pl, k) {
      BlockIs(page, pl.level, CellBlock(pl, k));
    }
    Quotient(index, Step(pl.level), CellBlock(pl, k), index - CellStart(pl, k));
  }

  lemma {:induction false} StepGrows(level: nat)
    requires 0 < level
    ensures L2_SIZE <= Step(level)
  {
    MulMonotone(1, Step(level - 1), L2_SIZE);
  }

  /** No page of the range is answered by an entry above the bottom level. */
  ghost predicate UpperFree(nodes: seq<Node>, e: Entry, levels: nat, block: nat, index: nat, nb: nat)
  {
    forall page: nat :: Block(page, levels) == block && index <= page < index + nb ==>
      !Walk(nodes, e, page, levels).upper
  }

  /** Cells lie side by side and fill the node. */
  lemma NodeCells(pl: Place, k: nat)
    ensures NodeStart(pl) == CellStart(pl, 0) && NodeEnd(pl) == CellStart(pl, L2_SIZE)
    ensures CellEnd(pl, k) == CellStart(pl, k + 1) == CellStart(pl, k) + Step(pl.level)
    ensures k < L2_SIZE ==> CellEnd(pl, k) <= NodeEnd(pl)
    ensures NodeStart(pl) <= CellStart(pl, k)
  {
    MulAssoc(pl.prefix, L2_SIZE, Step(pl.level));
    MulDistribute(pl.prefix, 1, L2_SIZE);
    MulAssoc(pl.prefix + 1, L2_SIZE, Step(pl.level));
    MulDistribute(CellBlock(pl, k), 1, Step(pl.level));
    if k < L2_SIZE {
      MulMonotone(CellBlock(pl, k) + 1, CellBlock(pl, L2_SIZE), Step(pl.level));
    }
    MulMonotone(CellBlock(pl, 0), CellBlock(pl, k), Step(pl.level));
  }

  /** The cursor of the loop: at the start of the range in its first cell, then at the start of each later cell. */
  predicate Cursor(pl: Place, index: nat, nb: nat, k: nat, cur: nat)
  {
    && Digit(index, pl.level) <= k <= L2_SIZE
    && index <= cur <= index + nb
    && cur <= NodeEnd(pl)
    && (cur < index + nb ==> cur == if k == Digit(index, pl.level) then index else CellStart(pl, k))
  }

  /** Nodes used when the cursor has moved on to `cur`. */
  function Spent(pl: Place, index: nat, nb: nat, cur: nat): nat
  {
    if cur == index then 0
    else if cur < index + nb then
      if index == CellStart(pl, Digit(index, pl.level)) then 0 else pl.level
    else NodeCost(pl, index, nb) - 1
  }

  lemma ChildExtent(pl: Place, k: nat)
    requires 0 < pl.level
    ensures NodeStart(ChildPlace(pl, k)) == CellStart(pl, k) && NodeEnd(ChildPlace(pl, k)) == CellEnd(pl, k)
  {
  }

  /** Distinct cells do not overlap. */
  lemma CellsApart(pl: Place, j: nat, k: nat)
    requires j < k
    ensures CellEnd(pl, j) <= CellStart(pl, k)
  {
    MulMonotone(CellBlock(pl, j) + 1, CellBlock(pl, k), Step(pl.level));
  }

  lemma CursorMoves(pl: Place, index: nat, nb: nat, k: nat, cur: nat)
    requires Block(index, pl.level + 1) == pl.prefix && 0 < nb
    requires Cursor(pl, index, nb, k, cur) && cur < index + nb && k < L2_SIZE
    ensures Block(cur, pl.level) == CellBlock(pl, k)
    ensures var next := Min(index + nb, CellEnd(pl, k)); cur < next && Cursor(pl, index, nb, k + 1, next)
  {
    BlockUp(index, pl.level);
    NodeCells(pl, k);
    if k != Digit(index, pl.level) {
      assert Block(cur, pl.level) == CellBlock(pl, k) by {
        BlockIs(cur, pl.level, CellBlock(pl, k));
      }
    }
    CellExtent(pl, k, cur);
    hide Step, CellStart, CellEnd, NodeEnd, Block;
  }

  lemma CursorCost(pl: Place, index: nat, nb: nat, k: nat, cur: nat)
    requires Block(index, pl.level + 1) == pl.prefix && 0 < nb
    requires Cursor(pl, index, nb, k, cur) && cur < index + nb && k < L2_SIZE
    requires CellStart(pl, k) <= cur < CellEnd(pl, k) <= NodeEnd(pl)
    ensures Spent(pl, index, nb, cur) + CellCost(pl, k, cur, index + nb - cur)
            <= Spent(pl, index, nb, Min(index + nb, CellEnd(pl, k)))
  {
    var k0 := Digit(index, pl.level);
    BlockUp(index, pl.level);
    NodeCells(pl, k0);
    CellExtent(pl, k0, index);
    if k0 < k { CellsApart(pl, k0, k); }
    if 0 < k0 { CellsApart(pl, 0, k0); NodeCells(pl, 0); }
    if pl.level > 0 { ChildExtent(pl, k); }
    hide Step, CellStart, CellEnd, NodeStart, NodeEnd, Block, Digit, CellBlock;
  }

  lemma CursorStep(pl: Place, index: nat, nb: nat, k: nat, cur: nat)
    requires Block(index, pl.level + 1) == pl.prefix && 0 < nb
    requires Cursor(pl, index, nb, k, cur) && cur < index + nb && k < L2_SIZE
    ensures Block(cur, pl.level) == CellBlock(pl, k)
    ensures var next := Min(index + nb, CellEnd(pl, k));
            && cur < next && Cursor(pl, index, nb, k + 1, next)
            && Spent(pl, index, nb, cur) + CellCost(pl, k, cur, index + nb - cur) <= Spent(pl, index, nb, next)
  {
    CursorMoves(pl, index, nb, k, cur);
    CellExtent(pl, k, cur);
    NodeCells(pl, k);
    CursorCost(pl, index, nb, k, cur);
  }

  /** What holds of the pool while the cells of node `n` are being set. */
  ghost predicate Setting(p0: Pool, p1: Pool, n: nat, lo: nat, hi: nat, leaf: nat, small: bool)
    requires p0.Ok() && n < |p0.nodes|
  {
    var pl := p0.places[n];
    && p1.Ok()
    && p0.GrowsTo(p1)
    && Elsewhere(p0, p1, pl.root, pl.level + 1, pl.prefix)
    && NodeSet(p0, p1, n, pl.level, pl.prefix, lo, hi, leaf, small)
  }

  lemma SettingStart(p: Pool, n: nat, lo: nat, leaf: nat, small: bool)
    requires p.Ok() && n < |p.nodes|
    ensures Setting(p, p, n, lo, lo, leaf, small)
  {
  }

  /** The pages still to be set are as free of upper leaves as they were. */
  lemma SettingUpperFree(p0: Pool, p1: Pool, n: nat, lo: nat, cur: nat, leaf: nat, small: bool, k: nat, nb: nat)
    requires p0.Ok() && n < |p0.nodes| && k < L2_SIZE && lo <= cur
    requires Setting(p0, p1, n, lo, cur, leaf, small)
    requires var pl := p0.places[n]; UpperFree(p0.nodes, Entry(false, n), pl.level + 1, pl.prefix, lo, nb)
    ensures var pl := p0.places[n];
            cur <= lo + nb ==> UpperFree(p1.nodes, p1.nodes[n][k], pl.level, CellBlock(pl, k), cur, lo + nb - cur)
  {
    var pl := p0.places[n];
    if cur <= lo + nb {
      forall page: nat | Block(page, pl.level) == CellBlock(pl, k) && cur <= page < lo + nb
        ensures !Walk(p1.nodes, p1.nodes[n][k], page, pl.level).upper
      {
        CellBlockUp(pl, k, page);
        assert Walk(p0.nodes, Entry(false, n), page, pl.level + 1) == Walk(p0.nodes, p0.nodes[n][k], page, pl.level);
      }
    }
  }

  lemma SettingStep(p0: Pool, p1: Pool, p2: Pool, n: nat, k: nat, lo: nat, mid: nat, hi: nat, leaf: nat, small: bool)
    requires p0.Ok() && n < |p0.nodes| && k < L2_SIZE && p0.places[n].level < P_L2_LEVELS
    requires Setting(p0, p1, n, lo, mid, leaf, small)
    requires CellSet(p1, p2, n, k, mid, hi, leaf, small) && lo <= mid <= hi
    requires Block(mid, p0.places[n].level) == CellBlock(p0.places[n], k) && hi <= CellEnd(p0.places[n], k)
    ensures Setting(p0, p2, n, lo, hi, leaf, small)
  {
    CellExtent(p0.places[n], k, mid);
    NextCell(p0, p1, p2, n, k, lo, mid, hi, leaf, small);
  }

  /** The node behind the entry, allocated first when there was none. */
  ghost predicate Opened(p0: Pool, e: Entry, p1: Pool, n: nat, pl: Place)
    requires p0.Ok() && EntryAt(e, p0.nodes, p0.places, pl)
  {
    if e.ptr == NODE_NIL then |p0.nodes| < NODE_NIL && n == |p0.nodes| && p1 == Allocated(p0, pl)
    else n == e.ptr && p1 == p0
  }

  lemma OpenedWalk(p0: Pool, e: Entry, p1: Pool, n: nat, pl: Place, page: nat)
    requires p0.Ok() && EntryAt(e, p0.nodes, p0.places, pl) && Opened(p0, e, p1, n, pl)
    ensures p1.Ok() && n < |p1.nodes| && n != NODE_NIL && p1.places[n] == pl
    ensures Walk(p1.nodes, p1.nodes[n][Digit(page, pl.level)], page, pl.level)
            == Walk(p0.nodes, e, page, pl.level + 1)
  {
    if e.ptr == NODE_NIL {
      AllocatedOk(p0, pl);
      AllocatedWalk(p0, pl, page);
    }
  }

  lemma EntryOpened(p0: Pool, e: Entry, p1: Pool, n: nat, pl: Place, index: nat, nb: nat)
    requires p0.Ok() && EntryAt(e, p0.nodes, p0.places, pl) && Opened(p0, e, p1, n, pl)
    requires UpperFree(p0.nodes, e, pl.level + 1, pl.prefix, index, nb)
    ensures p1.Ok() && n < |p1.nodes| && n != NODE_NIL && p1.places[n] == pl
    ensures UpperFree(p1.nodes, Entry(false, n), pl.level + 1, pl.prefix, index, nb)
  {
    OpenedWalk(p0, e, p1, n, pl, index);
    var l := pl.level + 1;
    forall page: nat | Block(page, l) == pl.prefix && index <= page < index + nb
      ensures !Walk(p1.nodes, Entry(false, n), page, l).upper
    {
      OpenedWalk(p0, e, p1, n, pl, page);
    }
  }

  lemma EntryFinished(p0: Pool, e: Entry, p1: Pool, p2: Pool, n: nat, pl: Place, lo: nat, hi: nat, leaf: nat,
                      small: bool)
    requires p0.Ok() && EntryAt(e, p0.nodes, p0.places, pl) && Opened(p0, e, p1, n, pl)
    requires p1.Ok() && n < |p1.nodes| && p1.places[n] == pl && n != NODE_NIL
    requires Setting(p1, p2, n, lo, hi, leaf, small)
    ensures EntrySet(p0, e, p2, Entry(false, n), pl, lo, hi, leaf, small)
  {
    assert p2.places[n] == pl;
    forall d: RootId, page: nat | !(d == pl.root && Block(page, pl.level + 1) == pl.prefix)
      ensures Untouched(p0.nodes, p0.places, p2.nodes, d, page, P_L2_LEVELS)
    {
      assert Untouched(p1.nodes, p1.places, p2.nodes, d, page, P_L2_LEVELS);
      forall m | 0 <= m < |p0.nodes| && Serves(p0.places[m], d, page) && p0.places[m].level < P_L2_LEVELS
        ensures p2.nodes[m][Digit(page, p0.places[m].level)] == p0.nodes[m][Digit(page, p0.places[m].level)]
      {
        assert p1.places[m] == p0.places[m];
      }
    }
    var l := pl.level + 1;
    forall page: nat | Block(page, l) == pl.prefix
      ensures PageSet(Walk(p0.nodes, e, page, l), Walk(p2.nodes, Entry(false, n), page, l), lo <= page < hi, leaf,
                      small)
    {
      OpenedWalk(p0, e, p1, n, pl, page);
    }
  }

  class PhysPageMap {
    var nodes: seq<Node>
    var nodesAlloc: nat
    var roots: map<RootId, Entry>
    ghost var places: seq<Place>

    ghost function GetPool(): Pool
      reads this
    {
      Pool(nodes, places)
    }

    /** The pages the table can name. */
    static function Pages(): nat { Step(P_L2_LEVELS) }

    ghost predicate Valid()
      reads this
    {
      && Forest(nodes, places)
      && forall d :: d in roots ==> EntryAt(roots[d], nodes, places, Place(d, P_L2_LEVELS - 1, 0))
    }

    ghost function Lookup(d: RootId, page: nat): Found
      requires d in roots
      reads this
    {
      Walk(nodes, roots[d], page, P_L2_LEVELS)
    }

    /** An empty pool (core_begin clears the shared map) without any root. */
    constructor ()
      ensures Valid() && nodes == [] && roots == map[]
    {
      nodes, nodesAlloc, roots, places := [], 0, map[], [];
    }

    /** mem_begin: address space `d` starts with an empty table. */
    method AddRoot(d: RootId)
      requires Valid() && d !in roots
      modifies `roots
      ensures Valid() && roots == old(roots)[d := NIL_ENTRY]
      ensures forall page: nat :: Lookup(d, page) == Found(SECTION_UNASSIGNED, false)
      ensures forall d', page: nat :: d' in old(roots) ==> Lookup(d', page) == old(Lookup(d', page))
    {
      roots := roots[d := NIL_ENTRY];
    }

    /** phys_page_find. */
    method Find(d: RootId, index: nat) returns (section: nat)
      requires Valid() && d in roots && index < Pages()
      ensures section == Lookup(d, index).section
    {
      var lp, i := roots[d], P_L2_LEVELS - 1;
      BlockIs(index, P_L2_LEVELS, 0);
      while i >= 0 && !lp.isLeaf
        invariant -1 <= i < P_L2_LEVELS
        invariant Walk(nodes, lp, index, i + 1).section == Lookup(d, index).section
        invariant i >= 0 ==> lp.isLeaf || EntryAt(lp, nodes, places, Place(d, i, Block(index, i + 1)))
        decreases i
      {
        if lp.ptr == NODE_NIL {
          return SECTION_UNASSIGNED;
        }
        assert CellOk(nodes, places, lp.ptr, Digit(index, i));
        BlockUp(index, i);
        lp := nodes[lp.ptr][Digit(index, i)];
        i := i - 1;
      }
      section := lp.ptr;
    }

    /** phys_map_node_reserve. */
    method Reserve(n: nat)
      modifies `nodesAlloc
      ensures |nodes| + n <= nodesAlloc
      ensures |nodes| + n <= old(nodesAlloc) ==> nodesAlloc == old(nodesAlloc)
      ensures |nodes| + n > old(nodesAlloc) ==> nodesAlloc == Max(|nodes| + n, Max(16, 2 * old(nodesAlloc)))
    {
      if |nodes| + n > nodesAlloc {
        nodesAlloc := Max(nodesAlloc * 2, 16);
        nodesAlloc := Max(nodesAlloc, |nodes| + n);
      }
    }

    /** phys_map_node_alloc, with the initialisation phys_page_set_level does at the bottom level. */
    method AllocNode(level: nat, ghost pl: Place) returns (n: nat, ok: bool)
      requires Forest(nodes, places) && pl.level == level
      requires |nodes| < nodesAlloc  // the second assertion of phys_map_node_alloc
      modifies `nodes, `places
      ensures ok == (old(|nodes|) < NODE_NIL)
      ensures !ok ==> GetPool() == old(GetPool())
      ensures ok ==> n == old(|nodes|) && GetPool() == Allocated(old(GetPool()), pl)
    {
      n := |nodes|;
      ok := n != NODE_NIL;
      if ok {
        nodes := nodes + [FreshNode(level)];
        places := places + [pl];
      }
    }

    /** One turn of the loop of phys_page_set_level, at cell `k` of node `n`. */
    method SetCell(n: nat, k: nat, index: nat, nb: nat, leaf: nat, level: nat, ghost small: bool)
      returns (index': nat, nb': nat, ok: bool)
      requires Forest(nodes, places) && n < |nodes| && k < L2_SIZE && places[n].level == level < P_L2_LEVELS
      requires Block(index, level) == CellBlock(places[n], k) && 0 < nb && (small ==> nb < L2_SIZE)
      requires UpperFree(nodes, nodes[n][k], level, CellBlock(places[n], k), index, nb)
      requires |nodes| + CellCost(places[n], k, index, nb) <= nodesAlloc
      modifies `nodes, `places
      ensures ok || |nodes| == NODE_NIL
      ensures ok ==> CellSet(old(GetPool()), GetPool(), n, k, index, index', leaf, small)
      ensures ok ==> index' == Min(index + nb, CellEnd(old(places[n]), k)) && index' + nb' == index + nb
      ensures ok ==> |nodes| <= old(|nodes|) + CellCost(old(places[n]), k, index, nb)
      decreases level, 0
    {
      ghost var pl, p0 := places[n], GetPool();
      CellExtent(pl, k, index);
      var step := Step(level);
      if index % step == 0 && nb >= step {
        if level > 0 { StepGrows(level); }
        LeafCell(p0, n, k, index, index + step, leaf, small);
        nodes := nodes[n := nodes[n][k := Entry(true, leaf)]];
        assert GetPool() == Written(p0, n, k, Entry(true, leaf));
        index', nb', ok := index + step, nb - step, true;
      } else {
        assert level > 0;
        assert CellOk(nodes, places, n, k);
        assert !nodes[n][k].isLeaf by { assert !Walk(nodes, nodes[n][k], index, level).upper; }
        var e;
        e, index', nb', ok := SetLevel(nodes[n][k], index, nb, leaf, level - 1, ChildPlace(pl, k), small);
        if ok {
          DescendedCell(p0, n, k, GetPool(), e, index, index', leaf, small);
          ghost var p1 := GetPool();
          nodes := nodes[n := nodes[n][k := e]];
          assert GetPool() == Written(p1, n, k, e);
        }
      }
    }

    /** The loop of phys_page_set_level over the cells of node `n`. */
    method SetCells(n: nat, index: nat, nb: nat, leaf: nat, level: nat, ghost small: bool)
      returns (index': nat, nb': nat, ok: bool)
      requires Forest(nodes, places) && n < |nodes| && places[n].level == level < P_L2_LEVELS
      requires Block(index, level + 1) == places[n].prefix && 0 < nb && (small ==> nb < L2_SIZE)
      requires n != NODE_NIL && UpperFree(nodes, Entry(false, n), level + 1, places[n].prefix, index, nb)
      requires |nodes| + NodeCost(places[n], index, nb) - 1 <= nodesAlloc
      modifies `nodes, `places
      ensures ok || |nodes| == NODE_NIL
      ensures ok ==> Setting(old(GetPool()), GetPool(), n, index, index', leaf, small)
      ensures ok ==> index' == Min(index + nb, NodeEnd(old(places[n]))) && index' + nb' == index + nb
      ensures ok ==> |nodes| <= old(|nodes|) + NodeCost(old(places[n]), index, nb) - 1
      decreases level, 1
    {
      ghost var p0, pl := GetPool(), places[n];
      SettingStart(p0, n, index, leaf, small);
      BlockUp(index, level);
      CellExtent(pl, Digit(index, level), index);
      NodeCells(pl, Digit(index, level));
      hide Setting, UpperFree, CellSet, CellCost, NodeCost, Forest, Step, CellBlock;
      index', nb', ok := index, nb, true;
      var k := Digit(index, level);
      while nb' != 0 && k < L2_SIZE
        invariant ok && index' + nb' == index + nb
        invariant Cursor(pl, index, nb, k, index')
        invariant p0.Ok() && Setting(p0, GetPool(), n, index, index', leaf, small)
        invariant |nodes| <= |p0.nodes| + Spent(pl, index, nb, index')
        decreases L2_SIZE - k
      {
        CursorStep(pl, index, nb, k, index');
        SettingUpperFree(p0, GetPool(), n, index, index', leaf, small, k, nb);
        ghost var p1, cur := GetPool(), index';
        index', nb', ok := SetCell(n, k, index', nb', leaf, level, small);
        if !ok {
          return;
        }
        SettingStep(p0, p1, GetPool(), n, k, index, cur, index', leaf, small);
        k := k + 1;
      }
    }

    /** phys_page_set_level; the entry is passed in and the updated entry handed back. */
    method SetLevel(e: Entry, index: nat, nb: nat, leaf: nat, level: nat, ghost pl: Place, ghost small: bool)
      returns (e': Entry, index': nat, nb': nat, ok: bool)
      requires Forest(nodes, places) && pl.level == level < P_L2_LEVELS
      requires EntryAt(e, nodes, places, pl)
      requires Block(index, level + 1) == pl.prefix && 0 < nb && (small ==> nb < L2_SIZE)
      requires UpperFree(nodes, e, level + 1, pl.prefix, index, nb)
      requires |nodes| + NodeCost(pl, index, nb) <= nodesAlloc
      modifies `nodes, `places
      ensures ok || |nodes| == NODE_NIL
      ensures ok ==> EntrySet(old(GetPool()), e, GetPool(), e', pl, index, index', leaf, small)
      ensures ok ==> index' == Min(index + nb, NodeEnd(pl)) && index' + nb' == index + nb
      ensures ok ==> |nodes| <= old(|nodes|) + NodeCost(pl, index, nb)
      decreases level, 2
    {
      ghost var p0 := GetPool();
      var n := e.ptr;
      e', index', nb', ok := e, index, nb, true;
      if e.ptr == NODE_NIL {
        n, ok := AllocNode(level, pl);
        if !ok {
          return;
        }
        e' := Entry(false, n);
      }
      ghost var p1 := GetPool();
      EntryOpened(p0, e, p1, n, pl, index, nb);
      index', nb', ok := SetCells(n, index, nb, leaf, level, small);
      if ok {
        EntryFinished(p0, e, p1, GetPool(), n, pl, index, index', leaf, small);
      }
    }

    /** phys_page_set; `ok` is false when the pool runs into PHYS_MAP_NODE_NIL, where the original aborts. */
    method Set(d: RootId, index: nat, nb: nat, leaf: nat) returns (ok: bool)
      requires Valid() && d in roots && 0 < nb && index + nb <= Pages()
      requires forall page: nat :: index <= page < index + nb ==> !Lookup(d, page).upper
      modifies this
      ensures ok || |nodes| == NODE_NIL
      ensures ok ==> Valid() && roots.Keys == old(roots.Keys)
      ensures ok ==> forall d', page: nat :: d' in roots && page < Pages() ==>
                       PageSet(old(Lookup(d', page)), Lookup(d', page),
                               d' == d && index <= page < index + nb, leaf, nb < L2_SIZE)
      ensures ok ==> |nodes| <= old(|nodes|) + 2 * P_L2_LEVELS - 1
    {
      ghost var p0, pl := GetPool(), Place(d, P_L2_LEVELS - 1, 0);
      var e := roots[d];
      WholeTable(d, index, nb);
      assert UpperFree(nodes, e, P_L2_LEVELS, 0, index, nb) by {
        forall page: nat | index <= page < index + nb ensures !Walk(nodes, e, page, P_L2_LEVELS).upper {
          assert !Lookup(d, page).upper;
        }
      }
      hide Forest, UpperFree, EntrySet, NodeCost, NodeEnd, Walk, Step, PageSet;
      Reserve(3 * P_L2_LEVELS);
      var e', index', nb';
      e', index', nb', ok := SetLevel(e, index, nb, leaf, P_L2_LEVELS - 1, pl, nb < L2_SIZE);
      if ok {
        RootSet(p0, roots, d, GetPool(), e', index, index + nb, leaf, nb < L2_SIZE);
        roots := roots[d := e'];
      }
    }
  }

  lemma WholeTable(d: RootId, index: nat, nb: nat)
    requires index + nb <= Step(P_L2_LEVELS) && 0 < nb
    ensures Block(index, P_L2_LEVELS) == 0
    ensures var pl := Place(d, P_L2_LEVELS - 1, 0);
            NodeEnd(pl) == Step(P_L2_LEVELS) && NodeCost(pl, index, nb) <= 2 * P_L2_LEVELS - 1
  {
    BlockIs(index, P_L2_LEVELS, 0);
  }

  /** Setting pages under one root, seen from every root. */
  lemma RootSet(p0: Pool, roots: map<RootId, Entry>, d: RootId, p1: Pool, e: Entry,
                lo: nat, hi: nat, leaf: nat, small: bool)
    requires p0.Ok() && d in roots
    requires forall r :: r in roots ==> EntryAt(roots[r], p0.nodes, p0.places, Place(r, P_L2_LEVELS - 1, 0))
    requires EntrySet(p0, roots[d], p1, e, Place(d, P_L2_LEVELS - 1, 0), lo, hi, leaf, small)
    ensures p1.Ok()
    ensures forall r :: r in roots ==> EntryAt(roots[d := e][r], p1.nodes, p1.places, Place(r, P_L2_LEVELS - 1, 0))
    ensures forall r, page: nat :: r in roots && page < Step(P_L2_LEVELS) ==>
              PageSet(Walk(p0.nodes, roots[r], page, P_L2_LEVELS), Walk(p1.nodes, roots[d := e][r], page, P_L2_LEVELS),
                      r == d && lo <= page < hi, leaf, small)
  {
    forall r, page: nat | r in roots && page < Step(P_L2_LEVELS)
      ensures PageSet(Walk(p0.nodes, roots[r], page, P_L2_LEVELS), Walk(p1.nodes, roots[d := e][r], page, P_L2_LEVELS),
                      r == d && lo <= page < hi, leaf, small)
    {
      BlockIs(page, P_L2_LEVELS, 0);
      if r != d {
        assert Untouched(p0.nodes, p0.places, p1.nodes, r, page, P_L2_LEVELS);
        WalkUntouched(p0.nodes, p0.places, p1.nodes, roots[r], r, page, P_L2_LEVELS);
      }
    }
  }
}
