/** Live migration of RAM: the dirty bitmap, the page search, and what arrives at the other side (arch_init.c). */
module RamMigration {
  import opened Common

  // ---------------------------------------------------------------- blocks and bits

  /** A RAMBlock in pages: `pages` of them, numbered from `base` in the migration bitmap. */
  datatype Block = Block(base: nat, pages: nat, name: string) {
    predicate Has(p: int) { base <= p < base + pages }
  }

  predicate Apart(x: Block, y: Block)
  {
    x.name != y.name && (x.base + x.pages <= y.base || y.base + y.pages <= x.base)
  }

  /** The block list: not empty, no empty block, no page and no name twice, all pages below `n`. */
  predicate Layout(blocks: seq<Block>, n: nat)
  {
    && blocks != []
    && (forall k :: 0 <= k < |blocks| ==> 0 < blocks[k].pages && blocks[k].base + blocks[k].pages <= n)
    && (forall i, j :: 0 <= i < j < |blocks| ==> Apart(blocks[i], blocks[j]))
  }

  /** Page `o` of the block has its bit set. */
  predicate Dirty(b: Block, bits: seq<bool>, o: int)
  {
    0 <= o < b.pages && b.base + o < |bits| && bits[b.base + o]
  }

  predicate NoneIn(b: Block, bits: seq<bool>, from: int, to: int)
  {
    forall o :: from <= o < to ==> !Dirty(b, bits, o)
  }

  predicate AllFrom(b: Block, bits: seq<bool>, from: int)
  {
    forall o :: from <= o < b.pages && 0 <= o ==> Dirty(b, bits, o)
  }

  predicate CleanBlocks(blocks: seq<Block>, bits: seq<bool>, i: nat, j: nat)
    requires j <= |blocks|
  {
    forall k :: i <= k < j ==> NoneIn(blocks[k], bits, 0, blocks[k].pages)
  }

  predicate DirtyBlocks(blocks: seq<Block>, bits: seq<bool>, i: nat)
  {
    forall k :: i <= k < |blocks| ==> AllFrom(blocks[k], bits, 0)
  }

  /** Two different places have different pages, so clearing one bit clears one place. */
  lemma ClearedDirty(blocks: seq<Block>, bits: seq<bool>, k: nat, o: nat, j: nat, x: int)
    requires Layout(blocks, |bits|) && k < |blocks| && j < |blocks| && o < blocks[k].pages
    ensures Dirty(blocks[j], bits[blocks[k].base + o := false], x) <==> Dirty(blocks[j], bits, x) && !(j == k && x == o)
  {
    if j < k { assert Apart(blocks[j], blocks[k]); }
    if k < j { assert Apart(blocks[k], blocks[j]); }
  }

  // ---------------------------------------------------------------- searching one block

  /** The first dirty page at or after `start`, or the number of pages. */
  function FirstFrom(b: Block, bits: seq<bool>, start: nat): (r: nat)
    requires start <= b.pages
    ensures start <= r <= b.pages && NoneIn(b, bits, start, r)
    ensures r < b.pages ==> Dirty(b, bits, r)
    decreases b.pages - start
  {
    if start == b.pages || Dirty(b, bits, start) then start else FirstFrom(b, bits, start + 1)
  }

  /** Where the search goes: in the bulk stage, past the first page, simply on to the next page. */
  function NextOf(b: Block, bits: seq<bool>, start: nat, bulk: bool): nat
    requires start <= b.pages
  {
    if bulk && start > 0 then start + 1 else FirstFrom(b, bits, start)
  }

  /** Where the search of a block really begins. */
  function From(start: nat, bulk: bool): nat
  {
    if bulk && start > 0 then start + 1 else start
  }

  lemma NextOfIs(b: Block, bits: seq<bool>, start: nat, bulk: bool)
    requires start <= b.pages
    ensures var next := NextOf(b, bits, start, bulk);
            && From(start, bulk) <= next && NoneIn(b, bits, From(start, bulk), next)
            && (bulk && start > 0 ==> next == start + 1)
            && (!(bulk && start > 0) && next < b.pages ==> Dirty(b, bits, next))
  {
  }

  // ---------------------------------------------------------------- the bulk stage

  /** In the bulk stage everything after the cursor is still dirty; before it, anything may be. */
  predicate BulkOk(blocks: seq<Block>, bits: seq<bool>, lastSeen: Option<nat>, lastOffset: nat)
  {
    match lastSeen
    case None => lastOffset == 0 && DirtyBlocks(blocks, bits, 0)
    case Some(k) =>
      && k < |blocks| && lastOffset < blocks[k].pages
      && AllFrom(blocks[k], bits, lastOffset + 1) && DirtyBlocks(blocks, bits, k + 1)
  }

  /** The block a search begins in. */
  function StartOf(lastSeen: Option<nat>): nat { if lastSeen.Some? then lastSeen.value else 0 }

  /** The cursor always names a place in the list; before the first page is sent it is null and the stage is bulk. */
  predicate CursorOk(blocks: seq<Block>, bits: seq<bool>, bulk: bool, lastSeen: Option<nat>, lastOffset: nat)
  {
    && (lastSeen.None? ==> bulk)
    && (lastSeen.Some? ==> lastSeen.value < |blocks| && lastOffset <= blocks[lastSeen.value].pages)
    && (bulk ==> BulkOk(blocks, bits, lastSeen, lastOffset))
  }

  /**
    The one case in which a search drops a page: the bulk stage has just sent the very last page, and that page has been
    dirtied again while nothing else has.
   */
  predicate Drops(blocks: seq<Block>, bits: seq<bool>, bulk: bool, lastSeen: Option<nat>, lastOffset: nat)
  {
    && bulk && 0 < |blocks| && lastSeen == Some(|blocks| - 1)
    && var last := blocks[|blocks| - 1];
       && 0 < lastOffset == last.pages - 1 && Dirty(last, bits, lastOffset)
       && NoneIn(last, bits, 0, lastOffset) && CleanBlocks(blocks, bits, 0, |blocks| - 1)
  }

  // ---------------------------------------------------------------- the round

  /** What is known when the search comes to `block`: all places passed since the cursor are clean. */
  predicate Searching(blocks: seq<Block>, bits: seq<bool>, ck: nat, co: nat, f: nat, block: nat, offset: nat,
                      round: bool)
  {
    && ck < |blocks| && block < |blocks|
    && if !round && block == ck then offset == co
       else
         && offset == 0 && NoneIn(blocks[ck], bits, f, blocks[ck].pages)
         && if !round then ck < block && CleanBlocks(blocks, bits, ck + 1, block)
            else block <= ck && CleanBlocks(blocks, bits, ck + 1, |blocks|) && CleanBlocks(blocks, bits, 0, block)
  }

  /** `k`, `o` is the first dirty place in the round that starts at `f` in block `ck`. */
  predicate Reached(blocks: seq<Block>, bits: seq<bool>, ck: nat, f: nat, k: nat, o: nat)
    requires ck < |blocks| && k < |blocks|
  {
    && Dirty(blocks[k], bits, o)
    && if k == ck && f <= o then NoneIn(blocks[k], bits, f, o)
       else
         && NoneIn(blocks[ck], bits, f, blocks[ck].pages) && NoneIn(blocks[k], bits, 0, o)
         && if k > ck then CleanBlocks(blocks, bits, ck + 1, k)
            else CleanBlocks(blocks, bits, ck + 1, |blocks|) && CleanBlocks(blocks, bits, 0, k)
  }

  /** The place comes before the end of the list, counted from `f` in block `ck`. */
  predicate Ahead(ck: nat, f: nat, k: nat, o: nat)
  {
    k > ck || (k == ck && f <= o)
  }

  /** Nothing found in a block: on to the next, or around. */
  lemma Advance(blocks: seq<Block>, bits: seq<bool>, bulk: bool, ck: nat, co: nat, block: nat, offset: nat, round: bool)
    requires Searching(blocks, bits, ck, co, From(co, bulk), block, offset, round) && offset <= blocks[block].pages
    requires NextOf(blocks[block], bits, offset, bulk && !round) >= blocks[block].pages && !(round && block == ck)
    ensures if block + 1 < |blocks| then Searching(blocks, bits, ck, co, From(co, bulk), block + 1, 0, round)
            else !round && Searching(blocks, bits, ck, co, From(co, bulk), 0, 0, true)
  {
    hide FirstFrom;
    NextOfIs(blocks[block], bits, offset, bulk && !round);
  }

  /** The place a successful search stops at. */
  lemma Found(blocks: seq<Block>, bits: seq<bool>, bulk: bool, lastSeen: Option<nat>, co: nat, ck: nat,
              block: nat, offset: nat, round: bool)
    requires Layout(blocks, |bits|) && CursorOk(blocks, bits, bulk, lastSeen, co)
             && ck == StartOf(lastSeen)
    requires Searching(blocks, bits, ck, co, From(co, bulk), block, offset, round) && offset <= blocks[block].pages
    requires NextOf(blocks[block], bits, offset, bulk && !round) < blocks[block].pages
    requires round && block == ck ==> NextOf(blocks[block], bits, offset, bulk && !round) < co
    ensures Reached(blocks, bits, ck, From(co, bulk), block, NextOf(blocks[block], bits, offset, bulk && !round))
    ensures bulk && !round ==>
              var next := NextOf(blocks[block], bits, offset, true);
              AllFrom(blocks[block], bits, next + 1) && DirtyBlocks(blocks, bits, block + 1)
    ensures !Drops(blocks, bits, bulk, lastSeen, co)
    ensures !round <==> Ahead(ck, From(co, bulk), block, NextOf(blocks[block], bits, offset, bulk && !round))
  {
    hide FirstFrom;
    var next := NextOf(blocks[block], bits, offset, bulk && !round);
    NextOfIs(blocks[block], bits, offset, bulk && !round);
    assert Dirty(blocks[block], bits, next);
    if Drops(blocks, bits, bulk, lastSeen, co) {
      OnlyDirty(blocks, bits, bulk, lastSeen, co, block, next);
    }
  }

  lemma OnlyDirty(blocks: seq<Block>, bits: seq<bool>, bulk: bool, lastSeen: Option<nat>, co: nat, k: nat, o: nat)
    requires Drops(blocks, bits, bulk, lastSeen, co) && k < |blocks| && Dirty(blocks[k], bits, o)
    ensures k == |blocks| - 1 && o == co
  {
  }

  /** Before anything is sent, the very first page is found. */
  lemma NullFinds(blocks: seq<Block>, bits: seq<bool>, bulk: bool, lastOffset: nat)
    requires Layout(blocks, |bits|) && CursorOk(blocks, bits, bulk, None, lastOffset)
    ensures lastOffset == 0 && blocks != [] && NextOf(blocks[0], bits, 0, bulk) == 0 < blocks[0].pages
  {
    assert AllFrom(blocks[0], bits, 0);
    assert Dirty(blocks[0], bits, 0);
  }

  /** If the blocks from `k` on are all dirty, then they are all clean only when there are none. */
  lemma LaterDirty(blocks: seq<Block>, bits: seq<bool>, k: nat)
    requires Layout(blocks, |bits|) && k <= |blocks| && DirtyBlocks(blocks, bits, k)
    ensures CleanBlocks(blocks, bits, k, |blocks|) <==> k == |blocks|
  {
    if k < |blocks| {
      assert AllFrom(blocks[k], bits, 0) && Dirty(blocks[k], bits, 0);
      assert !NoneIn(blocks[k], bits, 0, blocks[k].pages);
    }
  }

  /** The round is over without a page to send: either nothing is dirty, or the one dirty page is dropped. */
  lemma RoundOver(blocks: seq<Block>, bits: seq<bool>, bulk: bool, lastSeen: Option<nat>, co: nat, ck: nat)
    requires Layout(blocks, |bits|) && CursorOk(blocks, bits, bulk, lastSeen, co) && lastSeen == Some(ck)
    requires Searching(blocks, bits, ck, co, From(co, bulk), ck, 0, true)
    requires NextOf(blocks[ck], bits, 0, false) >= co
    ensures Drops(blocks, bits, bulk, lastSeen, co) <==> NextOf(blocks[ck], bits, 0, false) < blocks[ck].pages
    ensures Drops(blocks, bits, bulk, lastSeen, co) ==> NextOf(blocks[ck], bits, 0, false) == co
    ensures !Drops(blocks, bits, bulk, lastSeen, co) ==> CleanBlocks(blocks, bits, 0, |blocks|)
  {
    hide FirstFrom, NextOf;
    var b, next := blocks[ck], NextOf(blocks[ck], bits, 0, false);
    NextOfIs(b, bits, 0, false);
    if next < b.pages {
      assert Dirty(b, bits, next) && next == co && bulk;
      assert co + 1 < b.pages ==> Dirty(b, bits, co + 1);
      LaterDirty(blocks, bits, ck + 1);
    }
  }

  /** The cursor after a page has been found and its bit cleared. */
  lemma FoundCursor(blocks: seq<Block>, bits: seq<bool>, bulk: bool, k: nat, o: nat)
    requires Layout(blocks, |bits|) && k < |blocks| && o < blocks[k].pages
    requires bulk ==> AllFrom(blocks[k], bits, o + 1) && DirtyBlocks(blocks, bits, k + 1)
    ensures var after := bits[blocks[k].base + o := false];
            CursorOk(blocks, after, bulk, Some(k), o) && !Drops(blocks, after, bulk, Some(k), o)
  {
    var after := bits[blocks[k].base + o := false];
    if bulk {
      forall x | o + 1 <= x < blocks[k].pages ensures Dirty(blocks[k], after, x) {
        ClearedDirty(blocks, bits, k, o, k, x);
      }
      forall j | k + 1 <= j < |blocks| ensures AllFrom(blocks[j], after, 0) {
        forall x | 0 <= x < blocks[j].pages ensures Dirty(blocks[j], after, x) {
          assert AllFrom(blocks[j], bits, 0);
          ClearedDirty(blocks, bits, k, o, j, x);
        }
      }
    }
    ClearedDirty(blocks, bits, k, o, k, o);
  }

  /** Dropping the one dirty page leaves nothing dirty. */
  lemma DroppedClean(blocks: seq<Block>, bits: seq<bool>, bulk: bool, lastSeen: Option<nat>, co: nat)
    requires Layout(blocks, |bits|) && Drops(blocks, bits, bulk, lastSeen, co)
    ensures CleanBlocks(blocks, bits[blocks[|blocks| - 1].base + co := false], 0, |blocks|)
  {
    var k := |blocks| - 1;
    var after := bits[blocks[k].base + co := false];
    forall j | 0 <= j < |blocks| ensures NoneIn(blocks[j], after, 0, blocks[j].pages) {
      forall x | 0 <= x < blocks[j].pages ensures !Dirty(blocks[j], after, x) {
        ClearedDirty(blocks, bits, k, co, j, x);
        assert j < k ==> NoneIn(blocks[j], bits, 0, blocks[j].pages);
      }
    }
  }

  // ---------------------------------------------------------------- the count

  function Marked(bits: seq<bool>): set<nat>
  {
    set p: nat | p < |bits| && bits[p]
  }

  lemma MarkedUpdate(bits: seq<bool>, p: nat, v: bool)
    requires p < |bits|
    ensures Marked(bits[p := v]) == if v then Marked(bits) + {p} else Marked(bits) - {p}
    ensures |Marked(bits[p := v])| == |Marked(bits)| + (if v && !bits[p] then 1 else if !v && bits[p] then -1 else 0)
  {
  }

  lemma {:induction false} MarkedAll(n: nat)
    ensures |Marked(seq(n, i => true))| == n
  {
    if n > 0 {
      MarkedAll(n - 1);
      assert Marked(seq(n, i => true)) == Marked(seq(n - 1, i => true)) + {n - 1};
    } else {
      assert Marked(seq(0, i => true)) == {};
    }
  }

  // ---------------------------------------------------------------- the stream

  /** The bytes of one page. */
  datatype Content = Content(bytes: seq<bv8>)

  function Zeros(): Content { Content(seq(TARGET_PAGE_SIZE, i => 0)) }

  datatype Payload = Compressed | Full(content: Content)

  /** A page in the stream; without a name it continues the block of the page before it. */
  datatype Record = Record(name: Option<string>, offset: nat, payload: Payload)

  /** The receiving side: the block the stream is in, and the pages written so far. */
  datatype Receiver = Failed | Receiver(cur: Option<string>, ram: map<(string, nat), Content>)

  function Unpacked(p: Payload): Content { if p.Compressed? then Zeros() else p.content }

  function Packed(c: Content): Payload { if c == Zeros() then Compressed else Full(c) }

  /** ram_load on one page. */
  function Receive(names: set<string>, l: Receiver, r: Record): Receiver
  {
    if l.Failed? then Failed
    else
      var name := if r.name.None? then l.cur else if r.name.value in names then r.name else None;
      if name.None? then Failed else Receiver(name, l.ram[(name.value, r.offset) := Unpacked(r.payload)])
  }

  function ReceiveAll(names: set<string>, l: Receiver, stream: seq<Record>): Receiver
  {
    if stream == [] then l else Receive(names, ReceiveAll(names, l, stream[..|stream| - 1]), stream[|stream| - 1])
  }

  lemma ReceiveOne(names: set<string>, l: Receiver, stream: seq<Record>, r: Record)
    ensures ReceiveAll(names, l, stream + [r]) == Receive(names, ReceiveAll(names, l, stream), r)
  {
    assert (stream + [r])[..|stream|] == stream;
  }

  lemma ReceiveNone(names: set<string>, l: Receiver)
    ensures ReceiveAll(names, l, []) == l
  {
  }

  /** The receiver is not told the name of the block it is in, nor sent a page of zeros. */
  ghost predicate TerseAt(l: Receiver, r: Record)
  {
    && (r.name.Some? && l.Receiver? ==> r.name != l.cur)
    && (r.payload.Full? ==> r.payload.content != Zeros())
  }

  /** That is so of every page of the stream. */
  ghost predicate Terse(names: set<string>, first: map<(string, nat), Content>, stream: seq<Record>)
  {
    forall i :: 0 <= i < |stream| ==> TerseAt(ReceiveAll(names, Receiver(None, first), stream[..i]), stream[i])
  }

  lemma TerseNext(names: set<string>, first: map<(string, nat), Content>, stream: seq<Record>, r: Record)
    requires Terse(names, first, stream) && TerseAt(ReceiveAll(names, Receiver(None, first), stream), r)
    ensures Terse(names, first, stream + [r])
  {
    hide ReceiveAll, TerseAt;
    var after := stream + [r];
    forall i | 0 <= i < |after| ensures TerseAt(ReceiveAll(names, Receiver(None, first), after[..i]), after[i]) {
      if i < |stream| { assert after[..i] == stream[..i]; } else { assert after[..i] == stream; }
    }
  }

  lemma NamesDiffer(blocks: seq<Block>, n: nat, j: nat, k: nat)
    requires Layout(blocks, n) && j < |blocks| && k < |blocks| && j != k
    ensures blocks[j].name != blocks[k].name
  {
    assert if j < k then Apart(blocks[j], blocks[k]) else Apart(blocks[k], blocks[j]);
  }

  /** A page goes out: with the block's name, or without it when the receiver is in that block. */
  lemma PageSent(names: set<string>, first: map<(string, nat), Content>, stream: seq<Record>, name: string, r: Record,
                 content: Content)
    requires name in names && Terse(names, first, stream) && r.payload == Packed(content)
    requires var l := ReceiveAll(names, Receiver(None, first), stream);
             && l.Receiver? && (stream == [] ==> r.name == Some(name))
             && (r.name.None? ==> l.cur == Some(name))
             && (r.name.Some? ==> r.name.value == name && (stream != [] ==> l.cur != Some(name)))
    ensures var l := ReceiveAll(names, Receiver(None, first), stream);
            var m := ReceiveAll(names, Receiver(None, first), stream + [r]);
            m.Receiver? && m.cur == Some(name) && m.ram == l.ram[(name, r.offset) := content]
    ensures Terse(names, first, stream + [r])
  {
    if stream == [] { ReceiveNone(names, Receiver(None, first)); }
    ReceiveOne(names, Receiver(None, first), stream, r);
    hide ReceiveAll, Terse;
    TerseNext(names, first, stream, r);
  }

  // ---------------------------------------------------------------- nothing is forgotten

  /** The other side has the page as it is here, or the page is still marked somewhere. */
  predicate Held(b: Block, o: nat, bits: seq<bool>, log: seq<bool>, lost: set<nat>, ram: seq<Content>,
                 there: map<(string, nat), Content>)
    requires |bits| == |log| == |ram| && b.base + o < |bits|
  {
    var p := b.base + o;
    bits[p] || log[p] || p in lost || ((b.name, o) in there && there[(b.name, o)] == ram[p])
  }

  ghost predicate Covered(blocks: seq<Block>, bits: seq<bool>, log: seq<bool>, lost: set<nat>, ram: seq<Content>,
                          there: map<(string, nat), Content>)
    requires |bits| == |log| == |ram| && Layout(blocks, |bits|)
  {
    forall k, o :: 0 <= k < |blocks| && 0 <= o < blocks[k].pages ==> Held(blocks[k], o, bits, log, lost, ram, there)
  }

  lemma SentCovered(blocks: seq<Block>, bits: seq<bool>, log: seq<bool>, lost: set<nat>, ram: seq<Content>,
                    there: map<(string, nat), Content>, k: nat, o: nat)
    requires |bits| == |log| == |ram| && Layout(blocks, |bits|) && k < |blocks| && o < blocks[k].pages
    requires Covered(blocks, bits, log, lost, ram, there)
    ensures var p := blocks[k].base + o;
            Covered(blocks, bits[p := false], log, lost - {p}, ram, there[(blocks[k].name, o) := ram[p]])
  {
    var p := blocks[k].base + o;
    var bits', lost', there' := bits[p := false], lost - {p}, there[(blocks[k].name, o) := ram[p]];
    forall j, x | 0 <= j < |blocks| && 0 <= x < blocks[j].pages
      ensures Held(blocks[j], x, bits', log, lost', ram, there')
    {
      assert Held(blocks[j], x, bits, log, lost, ram, there);
      if j < k { assert Apart(blocks[j], blocks[k]); }
      if k < j { assert Apart(blocks[k], blocks[j]); }
    }
  }

  lemma DroppedCovered(blocks: seq<Block>, bits: seq<bool>, log: seq<bool>, lost: set<nat>, ram: seq<Content>,
                       there: map<(string, nat), Content>, p: nat)
    requires |bits| == |log| == |ram| && Layout(blocks, |bits|) && p < |bits|
    requires Covered(blocks, bits, log, lost, ram, there)
    ensures Covered(blocks, bits[p := false], log, lost + {p}, ram, there)
  {
    var bits', lost' := bits[p := false], lost + {p};
    forall j, x | 0 <= j < |blocks| && 0 <= x < blocks[j].pages
      ensures Held(blocks[j], x, bits', log, lost', ram, there)
    {
      assert Held(blocks[j], x, bits, log, lost, ram, there);
    }
  }

  lemma WrittenCovered(blocks: seq<Block>, bits: seq<bool>, log: seq<bool>, lost: set<nat>, ram: seq<Content>,
                       there: map<(string, nat), Content>, p: nat, c: Content)
    requires |bits| == |log| == |ram| && Layout(blocks, |bits|) && p < |bits|
    requires Covered(blocks, bits, log, lost, ram, there)
    ensures Covered(blocks, bits, log[p := true], lost, ram[p := c], there)
  {
    var log', ram' := log[p := true], ram[p := c];
    forall j, x | 0 <= j < |blocks| && 0 <= x < blocks[j].pages
      ensures Held(blocks[j], x, bits, log', lost, ram', there)
    {
      assert Held(blocks[j], x, bits, log, lost, ram, there);
    }
  }

  /** When nothing is marked any more, all pages but the dropped ones are there. */
  lemma CoveredClean(blocks: seq<Block>, bits: seq<bool>, log: seq<bool>, lost: set<nat>, ram: seq<Content>,
                     there: map<(string, nat), Content>, k: nat, o: nat)
    requires |bits| == |log| == |ram| && Layout(blocks, |bits|) && k < |blocks| && o < blocks[k].pages
    requires Covered(blocks, bits, log, lost, ram, there)
    requires CleanBlocks(blocks, bits, 0, |blocks|) && CleanBlocks(blocks, log, 0, |blocks|)
    requires blocks[k].base + o !in lost
    ensures (blocks[k].name, o) in there && there[(blocks[k].name, o)] == ram[blocks[k].base + o]
  {
    assert Held(blocks[k], o, bits, log, lost, ram, there);
    assert NoneIn(blocks[k], bits, 0, blocks[k].pages) && NoneIn(blocks[k], log, 0, blocks[k].pages);
    assert !Dirty(blocks[k], bits, o) && !Dirty(blocks[k], log, o);
  }

  lemma StartSearch(blocks: seq<Block>, bits: seq<bool>, bulk: bool, lastSeen: Option<nat>, co: nat)
    requires Layout(blocks, |bits|) && CursorOk(blocks, bits, bulk, lastSeen, co)
    ensures var ck := StartOf(lastSeen);
            && Searching(blocks, bits, ck, co, From(co, bulk), ck, co, false) && ck < |blocks| && co <= blocks[ck].pages
            && (lastSeen.None? ==> co == 0)
  {
  }

  /** The search back at the cursor ends the round: what was found, what it means and what is left. */
  lemma RoundEnds(blocks: seq<Block>, bits: seq<bool>, bulk: bool, lastSeen: Option<nat>, co: nat, ck: nat,
                  offset: nat, next: nat)
    requires Layout(blocks, |bits|) && CursorOk(blocks, bits, bulk, lastSeen, co) && lastSeen == Some(ck)
    requires Searching(blocks, bits, ck, co, From(co, bulk), ck, offset, true) && offset <= blocks[ck].pages
    requires next == NextOf(blocks[ck], bits, offset, false) >= co
    ensures Drops(blocks, bits, bulk, lastSeen, co) <==> next < blocks[ck].pages
    ensures next < blocks[ck].pages ==> next == co && Dirty(blocks[ck], bits, next)
    ensures next >= blocks[ck].pages ==> next == blocks[ck].pages && CleanBlocks(blocks, bits, 0, |blocks|)
    ensures var after := if next < blocks[ck].pages then bits[blocks[ck].base + next := false] else bits;
            && CleanBlocks(blocks, after, 0, |blocks|) && CursorOk(blocks, after, false, Some(ck), next)
            && !Drops(blocks, after, false, Some(ck), next)
  {
    RoundOver(blocks, bits, bulk, lastSeen, co, ck);
    if next < blocks[ck].pages { DroppedClean(blocks, bits, bulk, lastSeen, co); }
  }

  lemma DropsPage(blocks: seq<Block>, bits: seq<bool>, bulk: bool, lastSeen: Option<nat>, co: nat)
    requires Layout(blocks, |bits|) && Drops(blocks, bits, bulk, lastSeen, co)
    ensures lastSeen == Some(|blocks| - 1) && blocks[|blocks| - 1].base + co < |bits|
  {
  }

  lemma ReachedDirty(blocks: seq<Block>, bits: seq<bool>, ck: nat, f: nat, k: nat, o: nat)
    requires ck < |blocks| && k < |blocks| && Reached(blocks, bits, ck, f, k, o)
    ensures Dirty(blocks[k], bits, o) && !CleanBlocks(blocks, bits, 0, |blocks|)
  {
    assert CleanBlocks(blocks, bits, 0, |blocks|) ==> NoneIn(blocks[k], bits, 0, blocks[k].pages);
  }

  // ---------------------------------------------------------------- syncing

  /** One of the first `k` blocks has the page. */
  ghost predicate InFirst(blocks: seq<Block>, k: nat, p: int)
    requires k <= |blocks|
  {
    exists j :: 0 <= j < k && blocks[j].Has(p)
  }

  ghost predicate Passed(blocks: seq<Block>, k: nat, o: nat, p: int)
    requires k <= |blocks|
  {
    InFirst(blocks, k, p) || (k < |blocks| && blocks[k].base <= p < blocks[k].base + o)
  }

  /** The dirty log up to page `o` of block `k` has been moved into the bitmap. */
  ghost predicate Moved(blocks: seq<Block>, k: nat, o: nat, bits: seq<bool>, log: seq<bool>, bits': seq<bool>,
                        log': seq<bool>)
    requires k <= |blocks|
  {
    && |bits'| == |bits| == |log| == |log'|
    && (forall p :: 0 <= p < |bits| ==> bits'[p] == (bits[p] || (log[p] && Passed(blocks, k, o, p))))
    && (forall p :: 0 <= p < |bits| ==> log'[p] == (log[p] && !Passed(blocks, k, o, p)))
  }

  /** The bitmap after a sync. */
  ghost function Synced(blocks: seq<Block>, bits: seq<bool>, log: seq<bool>): (r: seq<bool>)
    requires |log| == |bits|
    ensures |r| == |bits|
  {
    seq(|bits|, p requires 0 <= p < |bits| => bits[p] || (log[p] && InFirst(blocks, |blocks|, p)))
  }

  /** The dirty log after a sync. */
  ghost function SyncedLog(blocks: seq<Block>, log: seq<bool>): seq<bool>
  {
    seq(|log|, p requires 0 <= p < |log| => log[p] && !InFirst(blocks, |blocks|, p))
  }

  lemma MovedIsSynced(blocks: seq<Block>, bits: seq<bool>, log: seq<bool>, bits': seq<bool>, log': seq<bool>)
    requires Moved(blocks, |blocks|, 0, bits, log, bits', log')
    ensures |log| == |bits| && bits' == Synced(blocks, bits, log) && log' == SyncedLog(blocks, log)
  {
  }

  lemma MovedNone(blocks: seq<Block>, bits: seq<bool>, log: seq<bool>)
    requires Layout(blocks, |bits|) && |log| == |bits|
    ensures Moved(blocks, 0, 0, bits, log, bits, log)
  {
  }

  lemma MovedStep(blocks: seq<Block>, k: nat, o: nat, bits: seq<bool>, log: seq<bool>, bits': seq<bool>,
                  log': seq<bool>)
    requires Layout(blocks, |bits|) && k < |blocks| && o < blocks[k].pages
             && Moved(blocks, k, o, bits, log, bits', log')
    ensures var p := blocks[k].base + o;
            && p < |bits'| == |log'|
            && Moved(blocks, k, o + 1, bits, log, if log'[p] then bits'[p := true] else bits',
                     if log'[p] then log'[p := false] else log')
  {
  }

  lemma MovedBlock(blocks: seq<Block>, k: nat, bits: seq<bool>, log: seq<bool>, bits': seq<bool>, log': seq<bool>)
    requires k < |blocks| && Moved(blocks, k, blocks[k].pages, bits, log, bits', log')
    ensures Moved(blocks, k + 1, 0, bits, log, bits', log')
  {
    forall p | 0 <= p < |bits| ensures Passed(blocks, k + 1, 0, p) == Passed(blocks, k, blocks[k].pages, p) {
      if InFirst(blocks, k + 1, p) {
        var j :| 0 <= j < k + 1 && blocks[j].Has(p);
        assert j < k ==> InFirst(blocks, k, p);
      }
      if blocks[k].Has(p) { assert InFirst(blocks, k + 1, p); }
    }
  }

  /** What moving the whole log leaves: marked pages stay marked, and the log holds no page of a block. */
  lemma MovedAll(blocks: seq<Block>, bits: seq<bool>, log: seq<bool>, bits': seq<bool>, log': seq<bool>)
    requires Layout(blocks, |bits|) && |log| == |bits| && Moved(blocks, |blocks|, 0, bits, log, bits', log')
    ensures CleanBlocks(blocks, log', 0, |blocks|)
    ensures forall k, o :: 0 <= k < |blocks| && 0 <= o < blocks[k].pages ==>
              (Dirty(blocks[k], bits', o) <==> Dirty(blocks[k], bits, o) || Dirty(blocks[k], log, o))
  {
    forall k, o | 0 <= k < |blocks| && 0 <= o < blocks[k].pages
      ensures !Dirty(blocks[k], log', o)
      ensures Dirty(blocks[k], bits', o) <==> Dirty(blocks[k], bits, o) || Dirty(blocks[k], log, o)
    {
      assert blocks[k].Has(blocks[k].base + o);
      assert InFirst(blocks, |blocks|, blocks[k].base + o);
    }
  }

  lemma MovedCursor(blocks: seq<Block>, bits: seq<bool>, bits': seq<bool>, bulk: bool, lastSeen: Option<nat>,
                    lastOffset: nat)
    requires CursorOk(blocks, bits, bulk, lastSeen, lastOffset)
    requires forall k, o :: 0 <= k < |blocks| && Dirty(blocks[k], bits, o) ==> Dirty(blocks[k], bits', o)
    ensures CursorOk(blocks, bits', bulk, lastSeen, lastOffset)
  {
    if bulk {
      var k := if lastSeen.Some? then lastSeen.value + 1 else 0;
      forall j | k <= j < |blocks| ensures AllFrom(blocks[j], bits', 0) {
        assert AllFrom(blocks[j], bits, 0);
      }
    }
  }

  lemma MovedCovered(blocks: seq<Block>, bits: seq<bool>, log: seq<bool>, bits': seq<bool>, log': seq<bool>,
                     lost: set<nat>, ram: seq<Content>, there: map<(string, nat), Content>)
    requires |bits| == |log| == |ram| && Layout(blocks, |bits|) && Covered(blocks, bits, log, lost, ram, there)
    requires Moved(blocks, |blocks|, 0, bits, log, bits', log')
    ensures Covered(blocks, bits', log', lost, ram, there)
  {
    forall j, x | 0 <= j < |blocks| && 0 <= x < blocks[j].pages
      ensures Held(blocks[j], x, bits', log', lost, ram, there)
    {
      assert Held(blocks[j], x, bits, log, lost, ram, there);
      assert blocks[j].Has(blocks[j].base + x);
      assert InFirst(blocks, |blocks|, blocks[j].base + x);
    }
  }

  // ---------------------------------------------------------------- the migration

  /** What decides where the search goes and what it drops; `lost` are the pages dropped since they were last sent. */
  datatype Cursor = Cursor(bits: seq<bool>, log: seq<bool>, bulk: bool, lastSeen: Option<nat>, lastOffset: nat,
                           lost: set<nat>)

  /** A save entered at `c` drops a page. */
  predicate DropsAt(blocks: seq<Block>, c: Cursor)
  {
    Drops(blocks, c.bits, c.bulk, c.lastSeen, c.lastOffset)
  }

  /** Completion entered at `c` drops a page. */
  ghost predicate CompletionDrops(blocks: seq<Block>, c: Cursor)
  {
    |c.log| == |c.bits| && DropsAt(blocks, c.(bits := Synced(blocks, c.bits, c.log)))
  }

  /** The very last page of the last block. */
  function LastPage(blocks: seq<Block>): int
    requires blocks != []
  {
    blocks[|blocks| - 1].base + blocks[|blocks| - 1].pages - 1
  }

  function StartBlock(c: Cursor): nat { StartOf(c.lastSeen) }

  /** A save that sends page `o` of block `k`, the first dirty one of the round. */
  predicate Sends(blocks: seq<Block>, c: Cursor, c': Cursor, k: nat, o: nat)
  {
    && StartBlock(c) < |blocks| && k < |blocks| && blocks[k].base + o < |c.bits|
    && Reached(blocks, c.bits, StartBlock(c), From(c.lastOffset, c.bulk), k, o)
    && var p := blocks[k].base + o;
       var bulk := c.bulk && Ahead(StartBlock(c), From(c.lastOffset, c.bulk), k, o);
       c' == Cursor(c.bits[p := false], c.log, bulk, Some(k), o, c.lost - {p})
  }

  /** What one save does to the cursor: drop, find nothing, or send. */
  ghost predicate Saves(blocks: seq<Block>, c: Cursor, c': Cursor)
  {
    if DropsAt(blocks, c) then
      && 0 <= LastPage(blocks) < |c.bits|
      && c' == c.(bits := c.bits[LastPage(blocks) := false], bulk := false, lost := c.lost + {LastPage(blocks)})
    else if CleanBlocks(blocks, c.bits, 0, |blocks|) then
      && StartBlock(c) < |blocks| && c.lastSeen.Some?
      && c' == c.(bulk := false, lastOffset := blocks[StartBlock(c)].pages)
    else
      exists k: nat, o: nat :: Sends(blocks, c, c', k, o)
  }

  /** The first dirty place of a round is unique. */
  lemma ReachedUnique(blocks: seq<Block>, bits: seq<bool>, ck: nat, f: nat, k: nat, o: nat, k': nat, o': nat)
    requires ck < |blocks| && k < |blocks| && k' < |blocks|
    requires Reached(blocks, bits, ck, f, k, o) && Reached(blocks, bits, ck, f, k', o')
    ensures k == k' && o == o'
  {
    hide Dirty;
    assert Dirty(blocks[k], bits, o) && Dirty(blocks[k'], bits, o');
    DirtyInside(blocks[k], bits, o);
    DirtyInside(blocks[k'], bits, o');
  }

  lemma DirtyInside(b: Block, bits: seq<bool>, o: int)
    requires Dirty(b, bits, o)
    ensures 0 <= o < b.pages
  {
  }

  /** So a save is a function of the cursor. */
  lemma SavesUnique(blocks: seq<Block>, c: Cursor, c1: Cursor, c2: Cursor)
    requires Saves(blocks, c, c1) && Saves(blocks, c, c2)
    ensures c1 == c2
  {
    hide Reached, CleanBlocks, DropsAt;
    if !DropsAt(blocks, c) && !CleanBlocks(blocks, c.bits, 0, |blocks|) {
      var k: nat, o: nat :| Sends(blocks, c, c1, k, o);
      var k': nat, o': nat :| Sends(blocks, c, c2, k', o');
      ReachedUnique(blocks, c.bits, StartBlock(c), From(c.lastOffset, c.bulk), k, o, k', o');
    }
  }

  class Migration {
    const blocks: seq<Block>
    var bitmap: seq<bool>
    var dirtyPages: int
    var log: seq<bool>
    var ram: seq<Content>
    var lastSeen: Option<nat>
    var lastSent: Option<nat>
    var lastOffset: nat
    var bulk: bool
    var stream: seq<Record>
    // The receiving side at the start, and the pages this side has dropped.
    ghost const names: set<string>
    ghost const first: map<(string, nat), Content>
    ghost var lost: set<nat>

    ghost predicate Sized()
      reads this
    {
      Layout(blocks, |bitmap|) && |log| == |ram| == |bitmap|
    }

    ghost function Arrived(): Receiver
      reads this
    {
      ReceiveAll(names, Receiver(None, first), stream)
    }

    /** The receiver has followed the stream, and is in the block last sent. */
    ghost predicate StreamOk()
      reads this
    {
      && (forall k :: 0 <= k < |blocks| ==> blocks[k].name in names)
      && Arrived().Receiver?
      && (lastSent.Some? ==> lastSent.value < |blocks| && Arrived().cur == Some(blocks[lastSent.value].name))
      && (lastSent.None? ==> stream == []) && Terse(names, first, stream)
    }

    ghost predicate Valid()
      reads this
    {
      && Sized() && dirtyPages == |Marked(bitmap)| && CursorOk(blocks, bitmap, bulk, lastSeen, lastOffset)
      && StreamOk() && Covered(blocks, bitmap, log, lost, ram, Arrived().ram)
    }

    ghost function State(): Cursor
      reads this
    {
      Cursor(bitmap, log, bulk, lastSeen, lastOffset, lost)
    }

    /** ram_save_setup: every page up to the last block is marked, the holes between blocks too. */
    constructor (blocks: seq<Block>, ram: seq<Content>, log: seq<bool>, ghost names: set<string>,
                 ghost first: map<(string, nat), Content>)
      requires Layout(blocks, |ram|) && |log| == |ram| && forall k :: 0 <= k < |blocks| ==> blocks[k].name in names
      ensures Valid() && this.blocks == blocks && this.ram == ram && this.log == log && stream == [] && lost == {}
      ensures bitmap == seq(|ram|, i => true) && dirtyPages == |ram| && bulk && lastSeen == None && lastOffset == 0
      ensures this.names == names && this.first == first
    {
      this.blocks, this.ram, this.log, this.names, this.first := blocks, ram, log, names, first;
      bitmap, dirtyPages, bulk := seq(|ram|, i => true), |ram|, true;
      lastSeen, lastSent, lastOffset, stream, lost := None, None, 0, [], {};
      MarkedAll(|ram|);
    }

    /** The guest writes a page; the write is logged. */
    method GuestWrite(p: nat, c: Content)
      requires Valid() && p < |ram|
      modifies `ram, `log
      ensures Valid() && ram == old(ram)[p := c] && log == old(log)[p := true]
    {
      WrittenCovered(blocks, bitmap, log, lost, ram, Arrived().ram, p, c);
      ram := ram[p := c];
      log := log[p := true];
    }

    /** find_next_bit within a block. */
    method FindNextBit(b: Block, start: nat) returns (r: nat)
      requires start <= b.pages && b.base + b.pages <= |bitmap|
      ensures r == FirstFrom(b, bitmap, start)
    {
      r := start;
      while r < b.pages && !bitmap[b.base + r]
        invariant start <= r <= b.pages && FirstFrom(b, bitmap, start) == FirstFrom(b, bitmap, r)
      {
        r := r + 1;
      }
    }

    /**
      migration_bitmap_find_and_reset_dirty, in any state: the count stays right exactly when the page found is marked,
      which the bulk stage takes for granted.
     */
    method FindAndReset(k: nat, start: nat) returns (next: nat)
      requires Layout(blocks, |bitmap|) && k < |blocks| && start <= blocks[k].pages
      modifies `bitmap, `dirtyPages
      ensures next == NextOf(blocks[k], old(bitmap), start, bulk)
      ensures next >= blocks[k].pages ==> bitmap == old(bitmap) && dirtyPages == old(dirtyPages)
      ensures next < blocks[k].pages ==>
                bitmap == old(bitmap)[blocks[k].base + next := false] && dirtyPages == old(dirtyPages) - 1
      ensures dirtyPages - |Marked(bitmap)| == old(dirtyPages - |Marked(bitmap)|)
              <==> next >= blocks[k].pages || Dirty(blocks[k], old(bitmap), next)
    {
      var b := blocks[k];
      if bulk && start > 0 {
        next := start + 1;
      } else {
        next := FindNextBit(b, start);
      }
      if next < b.pages {
        MarkedUpdate(bitmap, b.base + next, false);
        bitmap := bitmap[b.base + next := false];
        dirtyPages := dirtyPages - 1;
      }
    }

    /** One page goes out: its header names the block unless the page before it did. */
    method Send(k: nat, o: nat) returns (bytes: nat)
      requires Sized() && StreamOk() && k < |blocks| && o < blocks[k].pages
      modifies `stream, `lastSent
      ensures StreamOk() && bytes > 0 && lastSent == Some(k)
      ensures Arrived().ram == old(Arrived().ram)[(blocks[k].name, o) := ram[blocks[k].base + o]]
      ensures |stream| == |old(stream)| + 1
    {
      var cont := lastSent == Some(k);
      var content := ram[blocks[k].base + o];
      var r := Record(if cont then None else Some(blocks[k].name), o, Packed(content));
      if lastSent.Some? && !cont { NamesDiffer(blocks, |ram|, lastSent.value, k); }
      PageSent(names, first, stream, blocks[k].name, r, content);
      hide ReceiveAll, Terse, Layout, Packed, Zeros;
      stream := stream + [r];
      lastSent := Some(k);
      bytes := 8 + (if cont then 0 else 1 + |blocks[k].name|) + (if content == Zeros() then 1 else TARGET_PAGE_SIZE);
    }

    /** The loop of ram_save_block up to where a page is written or the round is over. */
    method Search() returns (found: bool, block: nat, offset: nat)
      requires Sized() && dirtyPages == |Marked(bitmap)| && CursorOk(blocks, bitmap, bulk, lastSeen, lastOffset)
      modifies `bitmap, `dirtyPages, `bulk
      ensures Sized() && dirtyPages == |Marked(bitmap)| && block < |blocks|
              && CursorOk(blocks, bitmap, bulk, Some(block), offset)
      ensures found <==>
                && !old(Drops(blocks, bitmap, bulk, lastSeen, lastOffset))
                && !old(CleanBlocks(blocks, bitmap, 0, |blocks|))
      ensures found ==>
                && offset < blocks[block].pages && bitmap == old(bitmap)[blocks[block].base + offset := false]
                && dirtyPages == old(dirtyPages) - 1
                && Reached(blocks, old(bitmap), StartOf(lastSeen), old(From(lastOffset, bulk)), block, offset)
                && bulk == (old(bulk) && Ahead(StartOf(lastSeen), old(From(lastOffset, bulk)), block, offset))
      ensures !found ==>
                && lastSeen == Some(block) && CleanBlocks(blocks, bitmap, 0, |blocks|) && !bulk
                && if old(Drops(blocks, bitmap, bulk, lastSeen, lastOffset))
                   then bitmap == old(bitmap)[blocks[block].base + lastOffset := false] && offset == lastOffset
                   else bitmap == old(bitmap) && offset == blocks[block].pages
      ensures !Drops(blocks, bitmap, bulk, Some(block), offset)
    {
      hide Ahead, Layout, CursorOk, Dirty, Marked, FirstFrom, NextOf, Drops, Reached, CleanBlocks, DirtyBlocks,
           AllFrom, Searching, From;
      ghost var bits, bulk0 := bitmap, bulk;
      ghost var ck := StartOf(lastSeen);
      block := StartOf(lastSeen);
      offset := lastOffset;
      var round := false;
      StartSearch(blocks, bits, bulk0, lastSeen, lastOffset);
      while true
        invariant bitmap == bits && dirtyPages == |Marked(bitmap)| && bulk == (bulk0 && !round)
        invariant Sized() && block < |blocks| && offset <= blocks[block].pages
                  && (lastSeen.None? ==> !round && block == offset == 0)
        invariant Searching(blocks, bits, ck, lastOffset, From(lastOffset, bulk0), block, offset, round)
        decreases !round, |blocks| - block
      {
        if lastSeen.None? { NullFinds(blocks, bits, bulk, lastOffset); }
        var next := FindAndReset(block, offset);
        if round && lastSeen == Some(block) && next >= lastOffset {
          RoundEnds(blocks, bits, bulk0, lastSeen, lastOffset, ck, offset, next);
          return false, block, next;
        }
        if next >= blocks[block].pages {
          Advance(blocks, bits, bulk0, ck, lastOffset, block, offset, round);
          offset, block := 0, block + 1;
          if block == |blocks| {
            block, round, bulk := 0, true, false;
          }
        } else {
          Found(blocks, bits, bulk0, lastSeen, lastOffset, ck, block, offset, round);
          FoundCursor(blocks, bits, bulk, block, next);
          ReachedDirty(blocks, bits, ck, From(lastOffset, bulk0), block, next);
          return true, block, next;
        }
      }
    }

    /**
      ram_save_block: the next dirty page of the round goes out and is unmarked. Nothing goes out exactly when nothing
      is dirty or in the one case where the search drops its page.
     */
    method SaveBlock() returns (bytes: nat)
      requires Valid()
      modifies `bitmap, `dirtyPages, `bulk, `lastSeen, `lastOffset, `stream, `lastSent, `lost
      ensures Valid() && lastSeen.Some? && !Drops(blocks, bitmap, bulk, lastSeen, lastOffset)
      ensures bytes == 0 <==>
                old(Drops(blocks, bitmap, bulk, lastSeen, lastOffset)) || old(CleanBlocks(blocks, bitmap, 0, |blocks|))
      ensures bytes == 0 ==>
                && stream == old(stream) && CleanBlocks(blocks, bitmap, 0, |blocks|)
                && lastSeen == old(lastSeen) && !bulk
                && var p := blocks[lastSeen.value].base + old(lastOffset);
                   if old(Drops(blocks, bitmap, bulk, lastSeen, lastOffset))
                   then bitmap == old(bitmap)[p := false] && lost == old(lost) + {p} && lastOffset == old(lastOffset)
                   else bitmap == old(bitmap) && lost == old(lost) && lastOffset == blocks[lastSeen.value].pages
      ensures bytes > 0 ==>
                var k, o := lastSeen.value, lastOffset;
                && o < blocks[k].pages && dirtyPages == old(dirtyPages) - 1
                && Reached(blocks, old(bitmap), old(StartOf(lastSeen)), old(From(lastOffset, bulk)), k, o)
                && bulk == (old(bulk) && Ahead(old(StartOf(lastSeen)), old(From(lastOffset, bulk)), k, o))
                && bitmap == old(bitmap)[blocks[k].base + o := false] && lost == old(lost) - {blocks[k].base + o}
                && Arrived().ram == old(Arrived().ram)[(blocks[k].name, o) := ram[blocks[k].base + o]]
    {
      hide Ahead, CursorOk, Drops, Reached, CleanBlocks, From, Covered, Layout, Marked, Dirty, Terse, ReceiveAll;
      ghost var bits, there, gone := bitmap, Arrived().ram, lost;
      ghost var drops := Drops(blocks, bitmap, bulk, lastSeen, lastOffset);
      if drops { DropsPage(blocks, bitmap, bulk, lastSeen, lastOffset); }
      var found, block, offset := Search();
      ghost var p := blocks[block].base + offset;
      if found {
        SentCovered(blocks, bits, log, gone, ram, there, block, offset);
        bytes := Send(block, offset);
        lost := gone - {p};
      } else {
        bytes := 0;
        if drops {
          ghost var q := blocks[block].base + lastOffset;
          DroppedCovered(blocks, bits, log, gone, ram, there, q);
          lost := gone + {q};
        }
      }
      lastSeen, lastOffset := Some(block), offset;
    }

    /** migration_bitmap_set_dirty. */
    method SetDirty(p: nat) returns (was: bool)
      requires p < |bitmap|
      modifies `bitmap, `dirtyPages
      ensures was == old(bitmap)[p] && bitmap == old(bitmap)[p := true]
      ensures dirtyPages - |Marked(bitmap)| == old(dirtyPages - |Marked(bitmap)|)
    {
      MarkedUpdate(bitmap, p, true);
      was := bitmap[p];
      bitmap := bitmap[p := true];
      if !was {
        dirtyPages := dirtyPages + 1;
      }
    }

    /** migration_bitmap_sync: the logged pages of all blocks become marked, and leave the log. */
    method Sync()
      requires Valid()
      modifies `bitmap, `dirtyPages, `log
      ensures Valid() && Moved(blocks, |blocks|, 0, old(bitmap), old(log), bitmap, log)
      ensures CleanBlocks(blocks, log, 0, |blocks|)
    {
      hide CursorOk, CleanBlocks, Covered, Layout, Marked, Moved;
      ghost var bits, dirty := bitmap, log;
      MovedNone(blocks, bits, dirty);
      for k := 0 to |blocks|
        invariant Sized() && dirtyPages == |Marked(bitmap)| && |bits| == |bitmap|
        invariant Moved(blocks, k, 0, bits, dirty, bitmap, log)
      {
        SyncBlock(k, bits, dirty);
      }
      MovedAll(blocks, bits, dirty, bitmap, log);
      MovedCursor(blocks, bits, bitmap, bulk, lastSeen, lastOffset);
      MovedCovered(blocks, bits, dirty, bitmap, log, lost, ram, Arrived().ram);
    }

    /** The inner loop of migration_bitmap_sync. */
    method SyncBlock(k: nat, ghost bits: seq<bool>, ghost dirty: seq<bool>)
      requires Sized() && dirtyPages == |Marked(bitmap)| && k < |blocks|
               && Moved(blocks, k, 0, bits, dirty, bitmap, log)
      requires |bits| == |bitmap|
      modifies `bitmap, `dirtyPages, `log
      ensures |bits| == |bitmap| && Sized() && dirtyPages == |Marked(bitmap)|
              && Moved(blocks, k + 1, 0, bits, dirty, bitmap, log)
    {
      hide Moved, Marked;
      var b := blocks[k];
      for o := 0 to b.pages
        invariant |bits| == |bitmap| && Sized() && dirtyPages == |Marked(bitmap)|
                  && Moved(blocks, k, o, bits, dirty, bitmap, log)
      {
        MovedStep(blocks, k, o, bits, dirty, bitmap, log);
        if log[b.base + o] {
          log := log[b.base + o := false];
          var _ := SetDirty(b.base + o);
        }
      }
      MovedBlock(blocks, k, bits, dirty, bitmap, log);
    }

    /** One more save, as seen by the pages that had been dropped. */
    method SaveMarked(ghost before: set<nat>, ghost marked: seq<bool>, ghost there: map<(string, nat), Content>)
      returns (bytes: nat)
      requires Valid() && Resent(before, lost, marked, bitmap)
      requires Arrived().Receiver? && Unsent(blocks, lost, there, Arrived().ram)
      modifies `bitmap, `dirtyPages, `bulk, `lastSeen, `lastOffset, `stream, `lastSent, `lost
      ensures Valid() && !Drops(blocks, bitmap, bulk, lastSeen, lastOffset) && blocks != []
      ensures bytes == 0 ==> stream == old(stream) && CleanBlocks(blocks, bitmap, 0, |blocks|)
      ensures bytes > 0 ==> dirtyPages == old(dirtyPages) - 1
      ensures bytes == 0 && !old(Drops(blocks, bitmap, bulk, lastSeen, lastOffset)) ==> dirtyPages == old(dirtyPages)
      ensures if old(Drops(blocks, bitmap, bulk, lastSeen, lastOffset))
              then bytes == 0 && lost == old(lost) + {LastPage(blocks)}
              else lost <= old(lost) && Resent(before, lost, marked, bitmap)
      ensures !old(Drops(blocks, bitmap, bulk, lastSeen, lastOffset)) ==> Unsent(blocks, lost, there, Arrived().ram)
    {
      hide BulkOk, Drops, Reached, CleanBlocks, From, Covered, Layout, Marked, Resent, Ahead, Unsent;
      LayoutNonempty(blocks, |bitmap|);
      ghost var c, had := State(), Arrived().ram;
      if Drops(blocks, bitmap, bulk, lastSeen, lastOffset) { DropsLast(blocks, bitmap, bulk, lastSeen, lastOffset); }
      bytes := SaveBlock();
      if bytes > 0 {
        ghost var k, o := lastSeen.value, lastOffset;
        ReachedInside(blocks, c.bits, StartBlock(c), From(c.lastOffset, c.bulk), k, o);
        ResentStep(before, c.lost, marked, c.bits, blocks[k].base + o);
        UnsentStep(blocks, |bitmap|, c.lost, there, had, k, o, ram[blocks[k].base + o]);
      }
    }

    /**
      ram_save_complete, with the guest stopped: everything marked or logged goes out, and what the other side then has
      is this side's RAM, but for the dropped pages. `dropped` says whether this call drops a page.
     */
    method Complete() returns (ghost dropped: bool)
      requires Valid()
      modifies this
      ensures Valid() && ram == old(ram)
      ensures CleanBlocks(blocks, bitmap, 0, |blocks|) && CleanBlocks(blocks, log, 0, |blocks|)
      ensures dropped <==>
                Drops(blocks, Synced(blocks, old(bitmap), old(log)), old(bulk), old(lastSeen), old(lastOffset))
      ensures blocks != [] && (dropped ==> stream == old(stream) && lost == old(lost) + {LastPage(blocks)})
      ensures !dropped ==> lost <= old(lost)
      ensures !dropped ==> forall k, o ::
                0 <= k < |blocks| && 0 <= o < blocks[k].pages && blocks[k].base + o in old(lost) ==>
                (blocks[k].base + o in lost <==> !Dirty(blocks[k], Synced(blocks, old(bitmap), old(log)), o))
      ensures forall k, o :: 0 <= k < |blocks| && 0 <= o < blocks[k].pages && blocks[k].base + o !in lost ==>
                Copied(k, o)
      ensures Unsent(blocks, lost, old(Arrived().ram), Arrived().ram)
    {
      hide BulkOk, Drops, Reached, CleanBlocks, From, Covered, Layout, Marked, Moved, Synced, Resent, Unsent;
      ghost var bits, dirty := bitmap, log;
      Sync();
      MovedIsSynced(blocks, bits, dirty, bitmap, log);
      dropped := Drops(blocks, bitmap, bulk, lastSeen, lastOffset);
      ghost var marked := bitmap;
      ResentNone(lost, marked);
      UnsentNone(blocks, lost, Arrived().ram);
      LayoutNonempty(blocks, |bitmap|);
      if dropped { DropsLast(blocks, bitmap, bulk, lastSeen, lastOffset); }
      var bytes := SaveMarked(old(lost), marked, old(Arrived().ram));
      if dropped { UnsentNone(blocks, lost, Arrived().ram); }
      while bytes != 0
        invariant Valid() && CleanBlocks(blocks, log, 0, |blocks|) && ram == old(ram)
        invariant !Drops(blocks, bitmap, bulk, lastSeen, lastOffset)
        invariant bytes == 0 ==> CleanBlocks(blocks, bitmap, 0, |blocks|)
        invariant !dropped ==> lost <= old(lost) && Resent(old(lost), lost, marked, bitmap)
        invariant dropped ==> bytes == 0 && stream == old(stream) && lost == old(lost) + {LastPage(blocks)}
        invariant Unsent(blocks, lost, old(Arrived().ram), Arrived().ram)
        decreases dirtyPages, bytes
      {
        bytes := SaveMarked(old(lost), marked, old(Arrived().ram));
      }
      if !dropped {
        forall k, o | 0 <= k < |blocks| && 0 <= o < blocks[k].pages && blocks[k].base + o in old(lost)
          ensures blocks[k].base + o in lost <==> !Dirty(blocks[k], marked, o)
        {
          ResentAll(blocks, old(lost), lost, marked, bitmap, k, o);
        }
      }
      forall k, o | 0 <= k < |blocks| && 0 <= o < blocks[k].pages && blocks[k].base + o !in lost ensures Copied(k, o) {
        CoveredClean(blocks, bitmap, log, lost, ram, Arrived().ram, k, o);
      }
    }

    /** The other side has page `o` of block `k` as it is here. */
    ghost predicate Copied(k: nat, o: nat)
      requires Sized() && k < |blocks| && o < blocks[k].pages
      reads this
    {
      && Arrived().Receiver? && (blocks[k].name, o) in Arrived().ram
      && Arrived().ram[(blocks[k].name, o)] == ram[blocks[k].base + o]
    }
  }

  // ---------------------------------------------------------------- whole runs

  /** What can happen between setup and completion. */
  datatype Event = Write(page: nat, content: Content) | SyncNow | SaveNow

  /** What an event does to the cursor. */
  ghost predicate Steps(blocks: seq<Block>, e: Event, c: Cursor, c': Cursor)
  {
    match e
    case Write(p, _) => p < |c.log| && c' == c.(log := c.log[p := true])
    case SyncNow =>
      |c.log| == |c.bits| && c' == c.(bits := Synced(blocks, c.bits, c.log), log := SyncedLog(blocks, c.log))
    case SaveNow => Saves(blocks, c, c')
  }

  /** The cursors a run passes through. */
  ghost predicate IsTrace(blocks: seq<Block>, events: seq<Event>, trace: seq<Cursor>)
  {
    && |trace| == |events| + 1
    && forall i, j :: 0 <= i && j == i + 1 < |trace| ==> Steps(blocks, events[i], trace[i], trace[j])
  }

  /** The events and the first cursor determine the trace. */
  lemma {:induction false} TraceUnique(blocks: seq<Block>, events: seq<Event>, s: seq<Cursor>, t: seq<Cursor>, n: nat)
    requires IsTrace(blocks, events, s) && IsTrace(blocks, events, t) && s[0] == t[0] && n < |s|
    ensures s[n] == t[n]
    decreases n
  {
    if n > 0 {
      TraceUnique(blocks, events, s, t, n - 1);
      assert Steps(blocks, events[n - 1], s[n - 1], s[n]) && Steps(blocks, events[n - 1], t[n - 1], t[n]);
      if events[n - 1].SaveNow? { SavesUnique(blocks, s[n - 1], s[n], t[n]); }
    }
  }

  /** Some save of the run, or the completion after it, is entered where a page is dropped. */
  ghost predicate EverDrops(blocks: seq<Block>, events: seq<Event>, trace: seq<Cursor>)
    requires |trace| == |events| + 1
  {
    || (exists i :: 0 <= i < |events| && events[i].SaveNow? && DropsAt(blocks, trace[i]))
    || CompletionDrops(blocks, trace[|events|])
  }

  /** What is dropped for good when completion is entered at `c`: the last page, now or before and not marked since. */
  ghost predicate FinallyLost(blocks: seq<Block>, c: Cursor)
    requires blocks != []
  {
    var p := LastPage(blocks);
    || CompletionDrops(blocks, c)
    || (p in c.lost && |c.log| == |c.bits| && 0 <= p < |c.bits| && !Synced(blocks, c.bits, c.log)[p])
  }

  lemma LastPlace(blocks: seq<Block>, bits: seq<bool>)
    requires Layout(blocks, |bits|)
    ensures var k := |blocks| - 1;
            && 0 < blocks[k].pages && blocks[k].base + (blocks[k].pages - 1) == LastPage(blocks) < |bits|
            && (Dirty(blocks[k], bits, blocks[k].pages - 1) <==> bits[LastPage(blocks)])
  {
  }

  /** The RAM after an event. */
  function Written(ram: seq<Content>, e: Event): (r: seq<Content>)
    ensures |r| == |ram|
  {
    if e.Write? && e.page < |ram| then ram[e.page := e.content] else ram
  }

  /** The RAM after a run. */
  function WrittenRam(ram: seq<Content>, events: seq<Event>): (r: seq<Content>)
    ensures |r| == |ram|
  {
    if events == [] then ram else Written(WrittenRam(ram, events[..|events| - 1]), events[|events| - 1])
  }

  /** The save from `c` to `c'` sends a page, the one `c'` points at. */
  predicate SendsOne(blocks: seq<Block>, c: Cursor, c': Cursor)
  {
    && !DropsAt(blocks, c) && !CleanBlocks(blocks, c.bits, 0, |blocks|)
    && c'.lastSeen.Some? && c'.lastSeen.value < |blocks|
  }

  /** What the receiver has after an event. */
  function Delivered(blocks: seq<Block>, e: Event, c: Cursor, c': Cursor, ram: seq<Content>,
                     there: map<(string, nat), Content>): map<(string, nat), Content>
  {
    if e.SaveNow? && SendsOne(blocks, c, c') then
      var b, o := blocks[c'.lastSeen.value], c'.lastOffset;
      if b.base + o < |ram| then there[(b.name, o) := ram[b.base + o]] else there
    else there
  }

  /** One save, as an event. */
  method SaveOnce(m: Migration)
    requires m.Valid()
    modifies m
    ensures m.Valid() && Saves(m.blocks, old(m.State()), m.State()) && m.ram == old(m.ram)
    ensures m.Arrived().ram == Delivered(m.blocks, SaveNow, old(m.State()), m.State(), m.ram, old(m.Arrived().ram))
  {
    hide BulkOk, Covered, Layout, Marked, CleanBlocks, Reached, From, Drops, Ahead;
    ghost var c := m.State();
    if DropsAt(m.blocks, c) { DropsLast(m.blocks, c.bits, m.bulk, m.lastSeen, m.lastOffset); }
    var bytes := m.SaveBlock();
    if bytes > 0 {
      ReachedInside(m.blocks, c.bits, StartBlock(c), From(c.lastOffset, c.bulk), m.lastSeen.value, m.lastOffset);
      assert Sends(m.blocks, c, m.State(), m.lastSeen.value, m.lastOffset);
    }
  }

  /** One event. */
  method Happen(m: Migration, e: Event)
    requires m.Valid() && (e.Write? ==> e.page < |m.ram|)
    modifies m
    ensures m.Valid() && Steps(m.blocks, e, old(m.State()), m.State())
    ensures m.ram == Written(old(m.ram), e)
    ensures m.Arrived().ram == Delivered(m.blocks, e, old(m.State()), m.State(), m.ram, old(m.Arrived().ram))
  {
    hide BulkOk, Covered, Layout, Marked, CleanBlocks, Moved, Reached, From, Drops, Ahead, SendsOne;
    ghost var bits, log := m.bitmap, m.log;
    match e
    case Write(p, x) =>
      m.GuestWrite(p, x);
    case SyncNow =>
      m.Sync();
      MovedIsSynced(m.blocks, bits, log, m.bitmap, m.log);
    case SaveNow =>
      SaveOnce(m);
  }

  lemma DropsLast(blocks: seq<Block>, bits: seq<bool>, bulk: bool, lastSeen: Option<nat>, co: nat)
    requires Layout(blocks, |bits|) && Drops(blocks, bits, bulk, lastSeen, co)
    ensures lastSeen == Some(|blocks| - 1) && blocks[|blocks| - 1].base + co == LastPage(blocks)
            && 0 <= LastPage(blocks) < |bits|
  {
  }

  lemma ReachedInside(blocks: seq<Block>, bits: seq<bool>, ck: nat, f: nat, k: nat, o: nat)
    requires ck < |blocks| && k < |blocks| && Reached(blocks, bits, ck, f, k, o)
    ensures blocks[k].base + o < |bits| && bits[blocks[k].base + o]
  {
  }

  // ---------------------------------------------------------------- what arrives of the last page

  /** The save from `c` to `c'` sends the very last page. */
  predicate SendsLast(blocks: seq<Block>, c: Cursor, c': Cursor)
  {
    SendsOne(blocks, c, c') && c'.lastSeen.value == |blocks| - 1 && c'.lastOffset == blocks[|blocks| - 1].pages - 1
  }

  /** The last of the first `n` events that sent the very last page. */
  function LastSent(blocks: seq<Block>, events: seq<Event>, trace: seq<Cursor>, n: nat): (r: Option<nat>)
    requires n <= |events| && n < |trace|
    ensures r.Some? ==> r.value < n && events[r.value].SaveNow?
  {
    if n == 0 then None
    else if events[n - 1].SaveNow? && SendsLast(blocks, trace[n - 1], trace[n]) then Some(n - 1)
    else LastSent(blocks, events, trace, n - 1)
  }

  lemma {:induction false} LastSentGrows(blocks: seq<Block>, events: seq<Event>, trace: seq<Cursor>, x: Cursor, n: nat)
    requires n <= |events| && n < |trace|
    ensures LastSent(blocks, events, trace + [x], n) == LastSent(blocks, events, trace, n)
  {
    if n > 0 { LastSentGrows(blocks, events, trace, x, n - 1); }
  }

  /** What the receiver has of the very last page. */
  function LastLookup(blocks: seq<Block>, there: map<(string, nat), Content>): Option<Content>
    requires blocks != []
  {
    var b := blocks[|blocks| - 1];
    if b.pages == 0 then None else Lookup(there, b.name, b.pages - 1)
  }

  /** What it has of that page after `n` events: the page as it was when it was last sent. */
  function LastHad(blocks: seq<Block>, ram: seq<Content>, there: map<(string, nat), Content>, events: seq<Event>,
                   trace: seq<Cursor>, n: nat): Option<Content>
    requires blocks != [] && 0 <= LastPage(blocks) < |ram| && n <= |events| && n < |trace|
  {
    match LastSent(blocks, events, trace, n)
    case None => LastLookup(blocks, there)
    case Some(i) => Some(WrittenRam(ram, events[..i])[LastPage(blocks)])
  }

  lemma HadNext(blocks: seq<Block>, ram: seq<Content>, there: map<(string, nat), Content>, events: seq<Event>,
                trace: seq<Cursor>, x: Cursor, i: nat)
    requires blocks != [] && 0 <= LastPage(blocks) < |ram| && i < |events| && |trace| == i + 1
    ensures LastHad(blocks, ram, there, events, trace + [x], i + 1)
         == if events[i].SaveNow? && SendsLast(blocks, trace[i], x)
            then Some(WrittenRam(ram, events[..i])[LastPage(blocks)])
            else LastHad(blocks, ram, there, events, trace, i)
  {
    SentNext(blocks, events, trace, x, i);
    hide SendsLast, LastSent, WrittenRam, LastLookup;
  }

  lemma SentNext(blocks: seq<Block>, events: seq<Event>, trace: seq<Cursor>, x: Cursor, i: nat)
    requires i < |events| && |trace| == i + 1
    ensures LastSent(blocks, events, trace + [x], i + 1)
         == if events[i].SaveNow? && SendsLast(blocks, trace[i], x) then Some(i) else LastSent(blocks, events, trace, i)
  {
    hide SendsLast;
    LastSentGrows(blocks, events, trace, x, i);
  }

  lemma DeliveredLast(blocks: seq<Block>, e: Event, c: Cursor, c': Cursor, ram: seq<Content>,
                      there: map<(string, nat), Content>)
    requires Layout(blocks, |ram|)
    ensures LastLookup(blocks, Delivered(blocks, e, c, c', ram, there))
         == if e.SaveNow? && SendsLast(blocks, c, c') then Some(ram[LastPage(blocks)]) else LastLookup(blocks, there)
  {
    hide DropsAt, CleanBlocks;
    var last := |blocks| - 1;
    if e.SaveNow? && SendsOne(blocks, c, c') && c'.lastSeen.value < last {
      assert Apart(blocks[c'.lastSeen.value], blocks[last]);
    }
  }

  lemma WrittenNext(ram: seq<Content>, events: seq<Event>, i: nat)
    requires i < |events|
    ensures WrittenRam(ram, events[..i + 1]) == Written(WrittenRam(ram, events[..i]), events[i])
  {
    assert events[..i + 1][..i] == events[..i];
  }

  /** A run, before completion. */
  method RunEvents(m: Migration, events: seq<Event>) returns (ghost trace: seq<Cursor>)
    requires m.Valid() && m.lost == {}
    requires forall i :: 0 <= i < |events| && events[i].Write? ==> events[i].page < |m.ram|
    modifies m
    ensures m.Valid() && m.blocks != [] && 0 <= LastPage(m.blocks) < |m.ram|
    ensures IsTrace(m.blocks, events, trace) && trace[0] == old(m.State()) && trace[|events|] == m.State()
    ensures m.ram == WrittenRam(old(m.ram), events)
    ensures LastLookup(m.blocks, m.Arrived().ram)
         == LastHad(m.blocks, old(m.ram), old(m.Arrived().ram), events, trace, |events|)
    ensures m.lost <= {LastPage(m.blocks)}
    ensures (forall j :: 0 <= j < |events| && events[j].SaveNow? ==> !DropsAt(m.blocks, trace[j])) ==> m.lost == {}
  {
    hide Steps, Layout, Covered, CursorOk, Marked, ReceiveAll, LastHad, LastLookup, WrittenRam, Written, Delivered,
         DropsAt, SendsLast;
    LastInside(m);
    StartRun(m.blocks, m.ram, m.Arrived().ram, events, m.State());
    trace := [m.State()];
    for i := 0 to |events|
      invariant m.Valid() && m.blocks != [] && 0 <= LastPage(m.blocks) < |m.ram| == |old(m.ram)|
      invariant |trace| == i + 1 && trace[0] == old(m.State()) && trace[i] == m.State()
      invariant forall j, k :: 0 <= j && k == j + 1 < |trace| ==> Steps(m.blocks, events[j], trace[j], trace[k])
      invariant m.ram == WrittenRam(old(m.ram), events[..i])
      invariant LastLookup(m.blocks, m.Arrived().ram)
             == LastHad(m.blocks, old(m.ram), old(m.Arrived().ram), events, trace, i)
      invariant m.State().lost <= {LastPage(m.blocks)}
      invariant (forall j :: 0 <= j < i && events[j].SaveNow? ==> !DropsAt(m.blocks, trace[j])) ==> m.State().lost == {}
    {
      ghost var c, ram, there := m.State(), m.ram, m.Arrived().ram;
      Happen(m, events[i]);
      LastInside(m);
      LostStep(m.blocks, events[i], c, m.State());
      WrittenNext(old(m.ram), events, i);
      HadNext(m.blocks, old(m.ram), old(m.Arrived().ram), events, trace, m.State(), i);
      SavesWriteNothing(ram, events[i]);
      DeliveredLast(m.blocks, events[i], c, m.State(), m.ram, there);
      trace := trace + [m.State()];
    }
    assert events[..|events|] == events;
  }

  /**
    Any run, then completion. This side's RAM is what the run's writes make it. The other side ends with it but for at
    most the very last page. That page it has as it is here unless the run ends with the page dropped for good, and then
    it has it as it was when it was last sent.
   */
  method Migrate(m: Migration, events: seq<Event>) returns (ghost trace: seq<Cursor>)
    requires m.Valid() && m.lost == {}
    requires forall i :: 0 <= i < |events| && events[i].Write? ==> events[i].page < |m.ram|
    modifies m
    ensures m.Valid() && m.blocks != [] && 0 <= LastPage(m.blocks) < |m.ram|
    ensures IsTrace(m.blocks, events, trace) && trace[0] == old(m.State())
    ensures m.ram == WrittenRam(old(m.ram), events)
    ensures forall k, o ::
              0 <= k < |m.blocks| && 0 <= o < m.blocks[k].pages && m.blocks[k].base + o != LastPage(m.blocks) ==>
              m.Copied(k, o)
    ensures LastLookup(m.blocks, m.Arrived().ram)
         == if FinallyLost(m.blocks, trace[|events|])
            then LastHad(m.blocks, old(m.ram), old(m.Arrived().ram), events, trace, |events|)
            else Some(m.ram[LastPage(m.blocks)])
    ensures m.lost == if FinallyLost(m.blocks, trace[|events|]) then {LastPage(m.blocks)} else {}
    ensures !EverDrops(m.blocks, events, trace) ==> !FinallyLost(m.blocks, trace[|events|])
    ensures (forall k, o :: 0 <= k < |m.blocks| && 0 <= o < m.blocks[k].pages ==> m.Copied(k, o))
            <==> Arrives(m.blocks, old(m.ram), old(m.Arrived().ram), events, trace)
  {
    hide Drops, CursorOk, Covered, Layout, Marked, CleanBlocks, Moved, Steps, Synced, LastHad, WrittenRam, ReceiveAll;
    trace := RunEvents(m, events);
    LastPlace(m.blocks, Synced(m.blocks, m.bitmap, m.log));
    ghost var dropped := m.Complete();
    assert dropped <==> CompletionDrops(m.blocks, trace[|events|]);
    ghost var k := |m.blocks| - 1;
    ghost var o := m.blocks[k].pages - 1;
    assert m.Copied(k, o) <==> LastLookup(m.blocks, m.Arrived().ram) == Some(m.ram[LastPage(m.blocks)]);
    forall i, x | 0 <= i < |m.blocks| && 0 <= x < m.blocks[i].pages
      ensures m.Copied(i, x) || (i == k && x == o && !m.Copied(k, o))
    {
      if m.blocks[i].base + x == LastPage(m.blocks) { LastOnly(m.blocks, |m.ram|, i, x); }
    }
  }

  /** The run brings the very last page over. */
  ghost predicate Arrives(blocks: seq<Block>, ram: seq<Content>, there: map<(string, nat), Content>, events: seq<Event>,
                          trace: seq<Cursor>)
    requires blocks != [] && 0 <= LastPage(blocks) < |ram| && |trace| == |events| + 1
  {
    FinallyLost(blocks, trace[|events|]) ==>
      LastHad(blocks, ram, there, events, trace, |events|) == Some(WrittenRam(ram, events)[LastPage(blocks)])
  }

  /** Only the last place of the last block is the very last page. */
  lemma LastOnly(blocks: seq<Block>, n: nat, k: nat, o: nat)
    requires Layout(blocks, n) && k < |blocks| && o < blocks[k].pages && blocks[k].base + o == LastPage(blocks)
    ensures k == |blocks| - 1 && o == blocks[k].pages - 1
  {
  }

  lemma StartRun(blocks: seq<Block>, ram: seq<Content>, there: map<(string, nat), Content>, events: seq<Event>,
                 c: Cursor)
    requires blocks != [] && 0 <= LastPage(blocks) < |ram|
    ensures WrittenRam(ram, events[..0]) == ram
            && LastHad(blocks, ram, there, events, [c], 0) == LastLookup(blocks, there)
  {
  }

  lemma SavesWriteNothing(ram: seq<Content>, e: Event)
    ensures e.SaveNow? ==> Written(ram, e) == ram
  {
  }

  lemma LastInside(m: Migration)
    requires m.Valid()
    ensures Layout(m.blocks, |m.ram|) && m.blocks != [] && 0 <= LastPage(m.blocks) < |m.ram| && m.State().lost == m.lost
  {
    LastPlace(m.blocks, m.bitmap);
  }

  // ---------------------------------------------------------------- nothing is sent in vain

  /** Event `i` of the run sends page `p`. */
  predicate SendsPage(blocks: seq<Block>, events: seq<Event>, trace: seq<Cursor>, i: nat, p: nat)
    requires i < |events| && |trace| == |events| + 1
  {
    && events[i].SaveNow? && SendsOne(blocks, trace[i], trace[i + 1])
    && blocks[trace[i + 1].lastSeen.value].base + trace[i + 1].lastOffset == p
  }

  /** The page is neither marked nor logged. */
  predicate Clean(c: Cursor, p: nat)
  {
    p < |c.bits| == |c.log| && !c.bits[p] && !c.log[p]
  }

  /** Only a write makes a clean page dirty. */
  lemma CleanStays(blocks: seq<Block>, e: Event, c: Cursor, c': Cursor, p: nat)
    requires Steps(blocks, e, c, c') && Clean(c, p) && !(e.Write? && e.page == p)
    ensures Clean(c', p)
  {
    hide Reached, CleanBlocks, Drops, Ahead, From;
  }

  lemma {:induction false} CleanRun(blocks: seq<Block>, events: seq<Event>, trace: seq<Cursor>, p: nat, i: nat, j: nat)
    requires IsTrace(blocks, events, trace) && i <= j <= |events| && Clean(trace[i], p)
    requires forall k :: i <= k < j ==> !(events[k].Write? && events[k].page == p)
    ensures Clean(trace[j], p)
    decreases j
  {
    hide Steps, Clean;
    if i < j {
      CleanRun(blocks, events, trace, p, i, j - 1);
      assert Steps(blocks, events[j - 1], trace[j - 1], trace[j]);
      CleanStays(blocks, events[j - 1], trace[j - 1], trace[j], p);
    }
  }

  lemma SendsDirty(blocks: seq<Block>, events: seq<Event>, trace: seq<Cursor>, i: nat, p: nat)
    requires IsTrace(blocks, events, trace) && i < |events| && SendsPage(blocks, events, trace, i, p)
    ensures p < |trace[i].bits| && trace[i].bits[p]
    ensures trace[i + 1].bits == trace[i].bits[p := false] && trace[i + 1].log == trace[i].log
  {
    var c, c' := trace[i], trace[i + 1];
    assert Steps(blocks, events[i], c, c');
    hide CleanBlocks, Drops, Ahead, From, Reached;
    var k: nat, o: nat :| Sends(blocks, c, c', k, o);
    ReachedInside(blocks, c.bits, StartBlock(c), From(c.lastOffset, c.bulk), k, o);
  }

  /**
    A page is sent twice only for a write: either one between the two, or one that was in the log when it was sent
    first.
   */
  lemma SentTwice(blocks: seq<Block>, events: seq<Event>, trace: seq<Cursor>, p: nat, i: nat, j: nat)
    requires IsTrace(blocks, events, trace) && i < j < |events| && |trace[i].log| == |trace[i].bits|
    requires SendsPage(blocks, events, trace, i, p) && SendsPage(blocks, events, trace, j, p)
    ensures p < |trace[i].log|
    ensures trace[i].log[p] || exists k :: i < k < j && events[k].Write? && events[k].page == p
  {
    SendsDirty(blocks, events, trace, i, p);
    SendsDirty(blocks, events, trace, j, p);
    hide IsTrace, SendsPage;
    if !trace[i].log[p] && forall k :: i < k < j ==> !(events[k].Write? && events[k].page == p) {
      CleanRun(blocks, events, trace, p, i + 1, j);
    }
  }

  // ---------------------------------------------------------------- over all contents

  predicate SameKind(x: Event, y: Event)
  {
    match x
    case Write(p, _) => y.Write? && y.page == p
    case _ => x == y
  }

  /** The same run, but for what is written. */
  ghost predicate SameEvents(xs: seq<Event>, ys: seq<Event>)
  {
    |xs| == |ys| && forall i :: 0 <= i < |xs| ==> SameKind(xs[i], ys[i])
  }

  /** What the guest writes does not decide where the search goes. */
  lemma SameTrace(blocks: seq<Block>, xs: seq<Event>, ys: seq<Event>, trace: seq<Cursor>)
    requires IsTrace(blocks, xs, trace) && SameEvents(xs, ys)
    ensures IsTrace(blocks, ys, trace)
  {
    hide Saves, Synced, SyncedLog;
    forall i, j | 0 <= i && j == i + 1 < |trace| ensures Steps(blocks, ys[i], trace[i], trace[j]) {
      assert SameKind(xs[i], ys[i]) && Steps(blocks, xs[i], trace[i], trace[j]);
    }
  }

  lemma {:induction false} LastSentSame(blocks: seq<Block>, xs: seq<Event>, ys: seq<Event>, trace: seq<Cursor>, n: nat)
    requires SameEvents(xs, ys) && n <= |xs| && n < |trace|
    ensures LastSent(blocks, xs, trace, n) == LastSent(blocks, ys, trace, n)
  {
    hide SendsLast;
    if n > 0 {
      assert SameKind(xs[n - 1], ys[n - 1]);
      LastSentSame(blocks, xs, ys, trace, n - 1);
    }
  }

  /** The last event that writes page `p`. */
  function LastWrite(events: seq<Event>, p: nat): (r: Option<nat>)
    ensures r.Some? ==> r.value < |events| && events[r.value].Write? && events[r.value].page == p
  {
    if events == [] then None
    else
      var n := |events| - 1;
      if events[n].Write? && events[n].page == p then Some(n) else LastWrite(events[..n], p)
  }

  /** A page is what was last written to it. */
  lemma {:induction false} LastWriteIs(ram: seq<Content>, events: seq<Event>, p: nat)
    requires p < |ram|
    ensures WrittenRam(ram, events)[p] ==
            match LastWrite(events, p) case None => ram[p] case Some(i) => events[i].content
  {
    if events != [] { LastWriteIs(ram, events[..|events| - 1], p); }
  }

  lemma {:induction false} LastWritePrefix(events: seq<Event>, p: nat, n: nat)
    requires n <= |events| && (LastWrite(events, p).Some? ==> LastWrite(events, p).value < n)
    ensures LastWrite(events[..n], p) == LastWrite(events, p)
  {
    if n < |events| {
      LastWritePrefix(events[..|events| - 1], p, n);
      assert events[..|events| - 1][..n] == events[..n];
    } else {
      assert events[..n] == events;
    }
  }

  lemma {:induction false} LastWriteSame(xs: seq<Event>, ys: seq<Event>, p: nat)
    requires SameEvents(xs, ys)
    ensures LastWrite(xs, p) == LastWrite(ys, p)
  {
    if xs != [] {
      var n := |xs| - 1;
      assert SameKind(xs[n], ys[n]);
      forall i | 0 <= i < n ensures SameKind(xs[..n][i], ys[..n][i]) { assert SameKind(xs[i], ys[i]); }
      LastWriteSame(xs[..n], ys[..n], p);
    }
  }

  /** The very last page is written again after it was last sent. */
  predicate WrittenSince(blocks: seq<Block>, events: seq<Event>, trace: seq<Cursor>)
    requires blocks != [] && 0 <= LastPage(blocks) && |trace| == |events| + 1
  {
    var sent, written := LastSent(blocks, events, trace, |events|), LastWrite(events, LastPage(blocks));
    sent.Some? && written.Some? && sent.value < written.value
  }

  /** The cursor is at the very last page, or the page is among the dropped. */
  predicate AtLast(blocks: seq<Block>, c: Cursor)
    requires blocks != []
  {
    (c.lastSeen == Some(|blocks| - 1) && c.lastOffset == blocks[|blocks| - 1].pages - 1) || LastPage(blocks) in c.lost
  }

  /** Only by sending the page does a run get there. */
  lemma {:induction false} SentBefore(blocks: seq<Block>, events: seq<Event>, trace: seq<Cursor>, n: nat)
    requires blocks != [] && IsTrace(blocks, events, trace) && n <= |events| && !AtLast(blocks, trace[0])
    requires AtLast(blocks, trace[n])
    ensures LastSent(blocks, events, trace, n).Some?
  {
    if n > 0 {
      var c, c', e := trace[n - 1], trace[n], events[n - 1];
      assert Steps(blocks, e, c, c');
      if AtLast(blocks, c) {
        SentBefore(blocks, events, trace, n - 1);
      } else {
        GetsThere(blocks, e, c, c');
      }
    }
  }

  lemma GetsThere(blocks: seq<Block>, e: Event, c: Cursor, c': Cursor)
    requires blocks != [] && Steps(blocks, e, c, c') && !AtLast(blocks, c) && AtLast(blocks, c')
    ensures e.SaveNow? && SendsLast(blocks, c, c')
  {
    hide CleanBlocks, Reached, Synced, SyncedLog, Ahead, From;
    assert !DropsAt(blocks, c);
  }

  /**
    From the beginning on: whatever the guest's RAM holds and whatever its writes put there, the run brings the very
    last page over, unless the page is dropped for good and was written after it was last sent; and then, for some
    content written, the run does not.
   */
  lemma MigrateExact(blocks: seq<Block>, events: seq<Event>, trace: seq<Cursor>)
    requires IsTrace(blocks, events, trace) && trace[0].lastSeen.None? && trace[0].lost == {}
    requires Layout(blocks, |trace[0].bits|)
    ensures blocks != [] && 0 <= LastPage(blocks) < |trace[0].bits|
    ensures (forall ram, there, ys :: |ram| == |trace[0].bits| && SameEvents(events, ys) ==>
              Arrives(blocks, ram, there, ys, trace))
            <==> !(FinallyLost(blocks, trace[|events|]) && WrittenSince(blocks, events, trace))
  {
    LastPlace(blocks, trace[0].bits);
    hide Layout, IsTrace, LastHad, SameEvents, FinallyLost, WrittenSince;
    if FinallyLost(blocks, trace[|events|]) && WrittenSince(blocks, events, trace) {
      var ram := seq(|trace[0].bits|, _ => Zeros());
      var ys := LateWrite(blocks, events, trace, ram, map[]);
    } else {
      forall ram, ys, there | |ram| == |trace[0].bits| && SameEvents(events, ys)
        ensures Arrives(blocks, ram, there, ys, trace)
      {
        if FinallyLost(blocks, trace[|events|]) { NothingSince(blocks, events, ys, trace, ram, there); }
      }
    }
  }

  /** A content of the last write that does not arrive. */
  lemma LateWrite(blocks: seq<Block>, events: seq<Event>, trace: seq<Cursor>, ram: seq<Content>,
                  there: map<(string, nat), Content>) returns (ys: seq<Event>)
    requires blocks != [] && 0 <= LastPage(blocks) < |ram| && |trace| == |events| + 1
    requires FinallyLost(blocks, trace[|events|]) && WrittenSince(blocks, events, trace)
    ensures SameEvents(events, ys) && !Arrives(blocks, ram, there, ys, trace)
  {
    hide FinallyLost;
    var p, sent := LastPage(blocks), LastSent(blocks, events, trace, |events|).value;
    var i := LastWrite(events, p).value;
    var had := WrittenRam(ram, events[..sent])[p];
    var c := if had == Content([]) then Content([0]) else Content([]);
    ys := events[i := Write(p, c)];
    LastSentSame(blocks, events, ys, trace, |events|);
    LastWriteSame(events, ys, p);
    LastWriteIs(ram, ys, p);
    assert ys[..sent] == events[..sent];
  }

  lemma NothingSince(blocks: seq<Block>, events: seq<Event>, ys: seq<Event>, trace: seq<Cursor>, ram: seq<Content>,
                     there: map<(string, nat), Content>)
    requires blocks != [] && 0 <= LastPage(blocks) < |ram| && IsTrace(blocks, events, trace) && SameEvents(events, ys)
    requires trace[0].lastSeen.None? && trace[0].lost == {}
    requires FinallyLost(blocks, trace[|events|]) && !WrittenSince(blocks, events, trace)
    ensures Arrives(blocks, ram, there, ys, trace)
  {
    SentBefore(blocks, events, trace, |events|);
    hide FinallyLost;
    var p, sent := LastPage(blocks), LastSent(blocks, events, trace, |events|).value;
    LastSentSame(blocks, events, ys, trace, |events|);
    LastWriteSame(events, ys, p);
    LastWritePrefix(ys, p, sent);
    LastWriteIs(ram, ys, p);
    LastWriteIs(ram, ys[..sent], p);
  }

  /** What the receiver has of a page, if anything. */
  function Lookup(there: map<(string, nat), Content>, name: string, o: nat): Option<Content>
  {
    if (name, o) in there then Some(there[(name, o)]) else None
  }

  /** The receiver has the same of every page in `lost` as it had. */
  ghost predicate Unsent(blocks: seq<Block>, lost: set<nat>, before: map<(string, nat), Content>,
                         after: map<(string, nat), Content>)
  {
    forall k, o: nat :: 0 <= k < |blocks| && o < blocks[k].pages && blocks[k].base + o in lost ==>
      Lookup(after, blocks[k].name, o) == Lookup(before, blocks[k].name, o)
  }

  lemma UnsentNone(blocks: seq<Block>, lost: set<nat>, there: map<(string, nat), Content>)
    ensures Unsent(blocks, lost, there, there)
  {
  }

  lemma UnsentStep(blocks: seq<Block>, n: nat, lost: set<nat>, before: map<(string, nat), Content>,
                   after: map<(string, nat), Content>, k: nat, o: nat, c: Content)
    requires Layout(blocks, n) && k < |blocks| && o < blocks[k].pages && Unsent(blocks, lost, before, after)
    ensures Unsent(blocks, lost - {blocks[k].base + o}, before, after[(blocks[k].name, o) := c])
  {
    forall j, x: nat | 0 <= j < |blocks| && x < blocks[j].pages && blocks[j].base + x in lost - {blocks[k].base + o}
      ensures Lookup(after[(blocks[k].name, o) := c], blocks[j].name, x) == Lookup(before, blocks[j].name, x)
    {
      if j < k { assert Apart(blocks[j], blocks[k]); }
      if k < j { assert Apart(blocks[k], blocks[j]); }
    }
  }

  /** A dropped page stays dropped until it is sent, which clears its mark. */
  ghost predicate Resent(before: set<nat>, lost: set<nat>, marked: seq<bool>, bits: seq<bool>)
  {
    && |bits| == |marked|
    && forall p: nat :: p < |bits| ==>
         (bits[p] ==> marked[p]) && (p in before ==> (p in lost <==> marked[p] == bits[p]))
  }

  lemma ResentNone(lost: set<nat>, marked: seq<bool>)
    ensures Resent(lost, lost, marked, marked)
  {
  }

  lemma ResentStep(before: set<nat>, lost: set<nat>, marked: seq<bool>, bits: seq<bool>, p: nat)
    requires Resent(before, lost, marked, bits) && p < |bits| && bits[p]
    ensures Resent(before, lost - {p}, marked, bits[p := false])
  {
  }

  lemma ResentAll(blocks: seq<Block>, before: set<nat>, lost: set<nat>, marked: seq<bool>, bits: seq<bool>, k: nat,
                  o: nat)
    requires Layout(blocks, |bits|) && Resent(before, lost, marked, bits) && CleanBlocks(blocks, bits, 0, |blocks|)
    requires k < |blocks| && o < blocks[k].pages && blocks[k].base + o in before
    ensures blocks[k].base + o in lost <==> !Dirty(blocks[k], marked, o)
  {
    assert NoneIn(blocks[k], bits, 0, blocks[k].pages);
    assert !Dirty(blocks[k], bits, o);
  }

  lemma LayoutNonempty(blocks: seq<Block>, n: nat)
    requires Layout(blocks, n)
    ensures blocks != []
  {
  }

  /** Only a save can add to the dropped pages, and only the last page. */
  lemma LostStep(blocks: seq<Block>, e: Event, c: Cursor, c': Cursor)
    requires blocks != [] && Steps(blocks, e, c, c')
    ensures c'.lost <= c.lost + {LastPage(blocks)}
    ensures !(e.SaveNow? && DropsAt(blocks, c)) ==> c'.lost <= c.lost
  {
  }

  /** Two pages, sent once each. */
  method BothSent(x: Content) returns (m: Migration)
    ensures fresh(m) && m.Valid() && m.blocks == [Block(0, 2, "pc.ram")] && m.ram == [x, x] && m.log == [false, false]
    ensures m.bitmap == [false, false] && m.bulk && m.lastSeen == Some(0) && m.lastOffset == 1
    ensures ("pc.ram", 1) in m.Arrived().ram && m.Arrived().ram[("pc.ram", 1)] == x
  {
    hide BulkOk, Covered, Drops, Marked, Reached, CleanBlocks, Layout;
    m := new Migration([Block(0, 2, "pc.ram")], [x, x], [false, false], {"pc.ram"}, map[]);
    FirstReached(m.blocks, m.bitmap, 0);
    var n := m.SaveBlock();
    assert m.lastOffset == 0;
    assert m.bitmap == [false, true];
    FirstReached(m.blocks, m.bitmap, 1);
    n := m.SaveBlock();
  }

  lemma FirstReached(blocks: seq<Block>, bits: seq<bool>, o: nat)
    requires blocks == [Block(0, 2, "pc.ram")] && |bits| == 2 && o < 2 && bits[o] && bits[1] && (o == 1 ==> !bits[0])
    ensures forall k: nat, x: nat :: k < 1 && Reached(blocks, bits, 0, 0, k, x) ==> k == 0 && x == o
    ensures !CleanBlocks(blocks, bits, 0, 1)
    ensures !Drops(blocks, bits, true, None, 0) && !Drops(blocks, bits, true, Some(0), 0)
  {
    assert Dirty(blocks[0], bits, o);
    assert o == 1 ==> !Dirty(blocks[0], bits, 0);
    assert CleanBlocks(blocks, bits, 0, 1) ==> NoneIn(blocks[0], bits, 0, blocks[0].pages);
  }

  /** The second page is dirtied again, and completion ends with nothing marked and the other side a write behind. */
  method DropExample(x: Content, y: Content) returns (m: Migration)
    requires x != y
    ensures m.Valid() && |m.blocks| == 1 && m.blocks[0].pages == 2
    ensures CleanBlocks(m.blocks, m.bitmap, 0, 1) && CleanBlocks(m.blocks, m.log, 0, 1) && !m.Copied(0, 1)
  {
    hide CursorOk, Covered, Drops, Marked, CleanBlocks;
    m := BothSent(x);
    m.GuestWrite(1, y);
    DropsHere(m.blocks, m.bitmap, m.log);
    ghost var dropped := m.Complete();
  }

  lemma DropsHere(blocks: seq<Block>, bits: seq<bool>, log: seq<bool>)
    requires blocks == [Block(0, 2, "pc.ram")] && bits == [false, false] && log == [false, true]
    ensures Drops(blocks, Synced(blocks, bits, log), true, Some(0), 1)
  {
    assert blocks[0].Has(1);
    assert Synced(blocks, bits, log) == [false, true];
  }
}
