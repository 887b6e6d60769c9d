# Guest memory of QEMU 1.6, proved in Dafny

The project models the parts of QEMU 1.6 that decide where a guest's bytes are: how a tree of overlapping memory regions is
compiled into the table that answers guest accesses, and the smaller state machines around it that must not lose or misplace
a byte. Each component is modelled in the form the C code has (classes with fields that methods update, arrays changed in
place, loops) and proved against a specification that does not mention the code.

| file | what it models | main results |
|---|---|---|
| `MemoryRegion.dfy` | the region tree and `Resolve`, what a tree means | the meaning everything below is compared with |
| `FlatView.dfy` | `render_memory_region`, `flatview_simplify` | the flat view means what the tree means, and is the only canonical view that does |
| `Topology.dfy` | `address_space_update_topology_pass` | two passes take every listener from the old set of ranges to the new one without ever overlapping, and from the old logging to the new |
| `PhysMap.dfy` | the multi-level page table | a range is set for its pages and no others, in any table of the pool, within 2 * P_L2_LEVELS - 1 new nodes |
| `Dispatch.dfy` | `mem_add`, sub-pages, lookups | a section's bytes, and no others, reach the section at an unchanged distance |
| `AddressSpace.dfy` | `address_space_update_topology` | the table reaches at every address what the tree means there |
| `RegionGraph.dfy`, `MemoryApi.dfy` | regions as a mutable graph, transactions | in every run, at depth 0, every map is the rendering of its root and every table implements it, although edits under disabled regions skip the update; which unannounced moves of a root break this is said exactly; a run halts only for lack of room or at a tree the renderer cannot draw |
| `KvmSlots.dfy` | `kvm_set_phys_mem` | the guest-to-host map changes in the trimmed range only; two free slots suffice |
| `KvmListener.dfy` | `kvm_region_add`, `kvm_region_del` under a topology update | the slots, having shown the old view, show the new one and nothing else |
| `CopyOnRead.dfy` | copy-on-read serialisation | every interleaving shows, and hands to every read, exactly the guest's writes; a copy-on-read copies exactly when something is missing; once requests stop arriving, all of them end |
| `MultiWrite.dfy` | `multiwrite_merge`, `multiwrite_cb` | merging preserves the disk exactly when no dropped tail stays unwritten, and stays within what the host accepts |
| `RamBlocks.dfy` | the RAM block list | best fit, disjointness, and lookups through the cache that agree with a scan |
| `Tlb.dfy` | the softmmu TLB | a page flush leaves nothing of any mapping that contains the address and touches no other page's entry; every access goes where the memory behind it wants it |
| `RamMigration.dfy` | the RAM migration bitmap walk and its receiver | the other side ends with the RAM that the run's writes make here, but for at most the very last page; what it has of that page, and for which runs this can be wrong, is said exactly |
| `MemoryMapping.dfy`, `Dump.dfy` | the vmcore writer | the headers take the room announced for them, memory follows, and every program header points at the guest's bytes from its physical address on |

Integers are unbounded unless a 64-bit or 32-bit wrap matters, where it is written out. `TARGET_PAGE_SIZE`, `L2_SIZE`,
`P_L2_LEVELS` and `IOV_MAX` are parameters. An abort or a failed assertion of the original is a result value (`ok == false`,
`None`, `-1`), never an assumption, except where a contract below says under which condition it cannot happen.

## Where the code does not do what it is meant to

Each of these has a lemma or a method with a concrete case and a statement of exactly when the code is right.

- `ram_save_block` (arch_init.c:451-533) clears a page's bit before it tests whether the round is over. In the bulk stage the
  search steps past the page it sent last. If that page is the last page of the last block, has been dirtied again, and is the
  only dirty page, its bit is cleared and nothing is sent, and the call reports that no page is dirty. `RamMigration.Drops` is
  that condition; `Migration.SaveBlock` and `Migration.Complete` state that a page is dropped if and only if it holds, and
  `Migrate` states for whole runs which page ends up lost and exactly when. `RamMigration.MigrateExact` says that a run brings
  the page over whatever is written if and only if it is not lost for good after a write that came later than its last
  sending.
- `multiwrite_merge` (block.c:3454-3508) ends a merged request where the later request ends, so the tail of a longer earlier
  request is not written. `MultiWrite.MergeExactRoomy` says in sectors alone when that matters, for requests whose segments
  fit together under the limit; `MultiWrite.MergeExact` says it for all requests, over all data they may carry.
- `render_memory_region` (memory.c:570-575) passes the width of an existing range through a 64-bit conversion that asserts
  that the width is below 2^64. `FlatView.GenerateTopology` fails if and only if the tree is not `Drawable`, that is, if one
  terminating region of all 2^64 bytes comes to lie under another; `FlatView.TwoWholes` is the smallest such tree, and
  `FlatView.BoundedDrawn` says that a tree without such regions is always drawn.
- `kvm_set_phys_mem` (kvm-all.c:643-654) means to keep the whole pages of a section but takes the amount to cut from the size
  and applies it to the start. `KvmSlots.TrimKeeps` says that whole pages survive if and only if start and size agree modulo
  the page size; otherwise the section is dropped.
- `memory_region_set_address` (memory.c:1506-1527) moves a region that has no parent, or that is disabled or has a disabled
  parent, without an update; and `memory_region_add_subregion` (memory.c:1418-1462) gives a region its place under a parent
  without one if either is disabled. For the root of an address space `MemoryApi.RootMoveStale` and
  `MemoryApi.RootAttachStale` say that this leaves the map right if and only if the map is empty and the move brings nothing
  down from beyond the last address. The transaction theorem takes such moves in: `MemoryCore.Placed` says that every map is
  drawn where its root stands, all operations keep it, and `AddSubregion` and `SetAddress` say exactly when they do not.
- `write_elf32_load` (dump.c:218-242) stores 64-bit offsets and sizes in 32-bit fields. `Dump.EncodedIs` says that a header
  can be read back if and only if its values fit, `Dump.SmallFits` when they do, and `Dump.SmallWraps` is a header in a dump of
  4 GB that cannot.
- `find_ram_offset` (exec.c:1007-1040) never hands out space below the lowest block. `RamBlocks.FindSucceeds` says when it
  succeeds.

## Model

| member | source | states |
|---|---|---|
| MemoryRegion.ResolveFirstAppend | memory.c:536-539 | appending a subregion only adds answers where the earlier, higher-priority ones have none |
| FlatView.View.Insert | memory.c:273-285 | the range is inserted at the position, all others keep their order |
| FlatView.InsertMeaning | memory.c:273-285 | inserting a range into a gap adds its answers and changes no other address |
| FlatView.View.FillStep | memory.c:555-576 | one turn of the gap loop: the part before the next range is filled, or the next range is stepped over; the step fails if and only if it is 2^64 bytes wide |
| FlatView.View.FillGaps | memory.c:554-581 | the view stays sorted and disjoint; every address of the region that was unanswered now answers with it, all others are unchanged; fails if and only if a range of all 2^64 bytes is laid under another |
| FlatView.View.Render | memory.c:500-582 | through aliases, priorities and accumulated read-only: the new view is the old one where it answered, and `Resolve` of the region within the clip elsewhere; it stays sorted, disjoint, without empty ranges; fails exactly where the 64-bit assertion does |
| FlatView.View.RenderOwn | memory.c:536-581 | subregions in priority order first, then the region itself where it terminates |
| FlatView.BoundedDrawn | memory.c:554-576 | a tree without terminating regions of 2^64 bytes never meets the 64-bit assertion |
| FlatView.TwoWholes | memory.c:554-576 | two regions of 2^64 bytes side by side meet it |
| FlatView.View.MergeRun | memory.c:329-333 | the run found is the longest in which each range continues the one before it |
| FlatView.View.Simplify | memory.c:310-340 | the meaning of every address is kept, and no two adjacent ranges could still be merged |
| FlatView.RunMeaning | memory.c:310-340 | a whole run answers like its first range grown to the run's end, although only neighbours are compared |
| FlatView.CanonicalUnique | memory.c:310-340 | two simplified views with the same meaning are equal |
| FlatView.TopologyUnique | memory.c:585-599 | two trees have the same flat view if and only if they mean the same at every address |
| FlatView.GenerateTopology | memory.c:585-599 | the result is the canonical view whose meaning is the tree's; without a root it is empty; it fails if and only if the tree is not drawable |
| Topology.UpdatePass | memory.c:695-755 | the delete pass reports exactly the old ranges not in the new view, the add pass exactly the new ones as added or kept, with changes of logging |
| Topology.PassesHeard | memory.c:695-764 | a listener that insists on dropping only what it holds and never holding two overlapping ranges goes from exactly the old set to exactly the new one |
| Topology.PassesReceived | memory.c:695-764 | a listener that takes added and kept ranges alike receives the whole new view, in address order |
| Topology.PassesLogged | memory.c:731-741 | a listener that logs what the old view asks for is taken, for the ranges that stay, to exactly what the new view asks for, and is never told to start what it logs or to stop what it does not |
| Topology.DeletedExactly | memory.c:253-260 | a range is told to go if and only if the new view has none of the same region, place, offset and modes; a change of logging is no reason |
| PhysMap.PhysPageMap.AddRoot | exec.c:1716-1724 | a fresh table finds the unassigned section for every page, other tables are unchanged |
| PhysMap.PhysPageMap.Find | exec.c:211-225 | the walk ends at the entry the table holds for the page |
| PhysMap.PhysPageMap.Reserve | exec.c:139-149 | room for the requested number of nodes, grown only if needed, then at least doubled |
| PhysMap.PhysPageMap.AllocNode | exec.c:151-164 | the next node, empty, unless the pool has reached PHYS_MAP_NODE_NIL |
| PhysMap.WalkUntouched | exec.c:211-225 | a walk sees only the cells on its page's path, so a change elsewhere cannot alter it |
| PhysMap.CursorStep | exec.c:166-199 | the nodes a range costs below one cell and the cells after it add up within the bound for the whole range |
| PhysMap.PhysPageMap.SetCell | exec.c:187-197 | one cell: filled whole when the range covers it aligned, descended into otherwise |
| PhysMap.PhysPageMap.SetCells | exec.c:187-198 | the loop over a node's cells sets exactly the range's pages below the node |
| PhysMap.PhysPageMap.SetLevel | exec.c:166-199 | every page of the range below the entry finds the leaf, every other page of any table finds what it found, the nodes stay a forest, and the node cost is bounded |
| PhysMap.PhysPageMap.Set | exec.c:201-209 | exactly the pages of the range find the leaf, in this table only; at most 2 * P_L2_LEVELS - 1 nodes are used, so the reservation of 3 * P_L2_LEVELS suffices |
| Dispatch.FoundKind | exec.c:233-246 | a resolved lookup never ends at a sub-page container |
| Dispatch.Dispatcher.BeginTable | exec.c:1716-1724 | the new table reaches nothing, every other table what it reached |
| Dispatch.Dispatcher.AddSection | exec.c:771-789 | the section gets the next number, unless numbers would reach the page size |
| Dispatch.Dispatcher.LookupRegion | exec.c:233-246 | the section found is the one the index gives the address, through the sub-page table where there is one |
| Dispatch.Dispatcher.SubpageRegister | exec.c:1648-1666 | the section's number for exactly the bytes from start to end; nothing when either is outside the page |
| Dispatch.Dispatcher.NewSubpage | exec.c:1668-1686 | a page turned into a sub-page table reaches what it reached before |
| Dispatch.Dispatcher.OpenSubpage | exec.c:812-836 | the page is, or becomes, a sub-page; the assertion that it was unassigned or a sub-page holds |
| Dispatch.Dispatcher.RegisterSubpage | exec.c:812-839 | the section's bytes within the page reach the section, all other addresses what they reached |
| Dispatch.Dispatcher.RegisterMultipage | exec.c:841-851 | the same for a run of whole pages |
| Dispatch.Dispatcher.AddHead | exec.c:853-869 | the unaligned head, up to the page boundary |
| Dispatch.Dispatcher.AddPiece | exec.c:870-884 | the next piece: whole pages where possible, else what is left of a page |
| Dispatch.Dispatcher.MemAdd | exec.c:853-884 | terminates; exactly the section's bytes reach its region at an unchanged distance, so the pieces leave no gap and do not overlap |
| AddressSpace.TopologyFits | memory.c:585-599 | a flat view has a range outside the table if and only if the tree answers outside it, whatever the size of its root |
| AddressSpace.Feed | exec.c:853-884 | after the listener has heard the events, each address of the table reaches what the view says and other tables are unchanged |
| AddressSpace.UpdateTopology | memory.c:758-764 | end to end, for every root of whatever size: the table reaches at every address the region, offset and read-only flag that the tree resolves to, or nothing where it resolves to nothing; otherwise the tree is not drawable, or it answers outside the table, each if and only if so said, or a capacity assertion failed |
| RegionGraph.SameEffectResolve | memory.c:500-582 | two graphs that differ only under disabled regions, or in where detached regions are placed, mean the same under every region |
| RegionGraph.ResolveInfo | memory.c:500-582 | what a region of the graph means, by its own fields, its alias and its list of subregions |
| RegionGraph.AttachedHidden | memory.c:1418-1462 | attaching where either side is disabled cannot be seen |
| RegionGraph.DetachedHidden | memory.c:1483-1493 | detaching where either side is disabled cannot be seen |
| RegionGraph.DisabledChange | memory.c:1163-1171 | changing a region that is and stays disabled cannot be seen |
| RegionGraph.DetachedMove | memory.c:1506-1516 | placing a detached region elsewhere cannot be seen |
| RegionGraph.AttachedOk | memory.c:1418-1462 | parent links, priority order and acyclicity survive an attachment |
| RegionGraph.DetachedOk | memory.c:1483-1493 | parent links, priority order and acyclicity survive a detachment |
| RegionGraph.AttachedIs | memory.c:1418-1481 | the subregion has exactly the given parent, address, overlap flag and priority and stands behind exactly the siblings of higher priority; nothing else changes |
| RegionGraph.DetachedIs | memory.c:1483-1493 | the subregion has lost its parent and its place in the list; nothing else changes |
| RegionGraph.OutAndIn | memory.c:1506-1527 | out and back in gives a new address, keeps the priority of a region that may overlap, and places it behind exactly the siblings of higher priority |
| RegionGraph.PriorityKept | memory.c:1472-1527 | a region added with overlap and a priority still has it after a move, and comes before all siblings of at most that priority |
| MemoryApi.CurrentSame | memory.c:788-804 | an edit that cannot be seen leaves every map and every table current |
| MemoryApi.MemoryCore.Begin | memory.c:782-786 | depth rises by one, nothing else changes |
| MemoryApi.MemoryCore.Rebuild | memory.c:793-803 | every space's map is rendered again with its root where it stands; every table implements its tree unless some tree answers outside the tables, which is reported if and only if it is so; the run stops only for lack of room or at a tree that cannot be drawn |
| MemoryApi.MemoryCore.Commit | memory.c:788-804 | depth falls by one; at depth 0 an announced change is rebuilt, and the invariant holds again; maps are drawn where the roots stand if and only if they were or a change was announced; the run halts only in such a rebuild, for lack of room or at a tree that cannot be drawn, and always at the latter |
| MemoryApi.MemoryCore.Transact | memory.c:782-804 | an edit in its own transaction keeps the invariant, announced or invisible; maps are then drawn where the roots stand if and only if the edit or an earlier one was announced or no root has a new place; halting as for Commit |
| MemoryApi.MemoryCore.SetLog | memory.c:1163-1171 | the client's bit is what was asked for, every other bit and field as before; the invariant is kept although disabled regions skip the update; maps stay drawn where the roots stand; halting as for Commit |
| MemoryApi.WithBitIs | memory.c:1163-1171 | setting or clearing a client's bit changes that bit alone |
| MemoryApi.MemoryCore.SetReadonly | memory.c:1220-1228 | the flag is stored and nothing else, the invariant kept; maps stay drawn where the roots stand; halting as for Commit |
| MemoryApi.MemoryCore.SetRomd | memory.c:1230-1238 | the flag is stored and nothing else, the invariant kept; maps stay drawn where the roots stand; halting as for Commit |
| MemoryApi.MemoryCore.SetEnabled | memory.c:1495-1504 | the flag is stored and nothing else, the invariant kept; maps stay drawn where the roots stand; halting as for Commit |
| MemoryApi.MemoryCore.SetAliasOffset | memory.c:1529-1541 | the offset is stored and nothing else, the invariant kept; maps stay drawn where the roots stand; halting as for Commit |
| MemoryApi.MemoryCore.InitRegion | memory.c:830-850 | a new region of any size with each field as the original sets it, without parent or subregions, changes no space |
| MemoryApi.MemoryCore.InsertPosition | memory.c:1451-1457 | the first place whose region has no higher priority |
| MemoryApi.MemoryCore.AddSubregion | memory.c:1418-1481 | the subregion, which may be the root of a space, has the given parent, offset, overlap flag and priority (0 without overlap) and stands behind exactly the siblings of higher priority; nothing else changes; the invariant is kept; maps stay drawn where the roots stand except if and only if it is a root that gets a new place while it or the parent is disabled and no update is pending; halting as for Commit |
| MemoryApi.MemoryCore.FindSubregion | memory.c:1483-1493 | where the subregion is in its parent's list |
| MemoryApi.MemoryCore.DelSubregion | memory.c:1483-1493 | exactly that subregion leaves the list and loses its parent; nothing else changes; the invariant is kept; maps stay drawn where the roots stand; halting as for Commit |
| MemoryApi.MemoryCore.SetAddress | memory.c:1506-1527 | no change when the address is the same; a plain store without a parent; otherwise the new address, the priority kept if it may overlap, and a place behind exactly the siblings of higher priority, nothing else changing, in one transaction; maps stay drawn where the roots stand except if and only if it is a root that moves without a parent, or while it or the parent is disabled, and no update is pending; halting as for Commit |
| MemoryApi.MemoryCore.MoveAttached | memory.c:1517-1527 | the parented case keeps the invariant, with the same exception; halting as for Commit |
| MemoryApi.MemoryCore.NewSpace | memory.c:1708-1724 | a new space over any root, with an empty map drawn where the root stands, which is current if the root is disabled and is else to be rendered at commit |
| MemoryApi.MemoryCore.AddSpace | memory.c:1708-1724 | after its own transaction the new space, over any root, is current with the others; maps stay drawn where the roots stand; halting as for Commit |
| MemoryApi.MemoryCore.RenderAgain | memory.c:585-599 | at depth 0 a fresh rendering of a root equals its map, if maps are drawn where the roots stand; in general if and only if this root stands where it stood when its map was drawn, or the map is empty and stays so |
| MemoryApi.MemoryCore.Translate | exec.c:249-266 | at depth 0 the section and offset found are the region, offset and read-only flag the graph resolves the address to, or the unassigned section; the graph is taken as it stands, if maps are drawn where the roots stand, and else with the root where it stood |
| MemoryApi.RootMoveStale | memory.c:1506-1516 | moving a root leaves its map right if and only if the map is empty and nothing comes down from beyond the last address |
| MemoryApi.RootAttachStale | memory.c:1418-1462 | the same for a root that an unannounced attachment gives a new place |
| MemoryApi.EmptyMoved | memory.c:1506-1516 | the empty map of a moved root stays right if and only if nothing comes down from beyond the last address |
| MemoryApi.RootMoveExample | memory.c:1506-1516 | a concrete root and map for which it is wrong |
| KvmSlots.KvmState.AllocSlot | kvm-all.c:123-135 | the lowest free slot, or -1 only when all slots are live |
| KvmSlots.KvmState.LookupOverlapping | kvm-all.c:158-180 | the overlapping slot that starts lowest, or none when none overlaps |
| KvmSlots.KvmState.Register | kvm-all.c:775-786 | the slot is added to the live ones unless none is free |
| KvmSlots.KvmState.CutSlot | kvm-all.c:684-765 | the slot no longer maps the range, its outer parts keep their host addresses, at most one more slot is live |
| KvmSlots.CutDone | kvm-all.c:684-765 | unregistering a slot and registering its prefix and suffix changes no address outside the range |
| KvmSlots.KvmState.ClearRange | kvm-all.c:668-766 | terminates; afterwards no slot overlaps the range, or the range was already mapped as asked and nothing changed |
| KvmSlots.TrimKeeps | kvm-all.c:643-654 | what trimming keeps: all whole pages of the section if start and size agree modulo the page size, otherwise nothing |
| KvmSlots.TrimLoses | kvm-all.c:643-654 | two whole pages that are lost |
| KvmSlots.ActionIs | kvm-all.c:656-664 | which sections are mapped, which are unmapped and which are ignored, by what is behind them |
| KvmSlots.KvmState.SetPhysMem | kvm-all.c:629-787 | the trimmed range maps to the new RAM or to nothing, every other address keeps its host address, slots stay disjoint, at most two more are live, and two free slots rule out the abort |
| KvmListener.Dropped | kvm-all.c:796-801 | taking one range of the view away leaves the slots showing the others alone |
| KvmListener.Added | kvm-all.c:789-794 | adding one range of the view leaves the slots showing it and the others alone |
| KvmListener.Tell | kvm-all.c:789-801 | one call: the trimmed range gets its host addresses or none, every other address keeps its own; two free slots rule out the abort |
| KvmListener.SharedShows | memory.c:715-727 | ranges that both views have show the same seen from either |
| KvmListener.TellDeletions | memory.c:695-764 | after the delete pass the slots show exactly the old ranges that the new view keeps |
| KvmListener.TellAdditions | memory.c:695-764 | after the add pass they show exactly the new view, kept ranges included that no call is made for; it fails only when fewer than two slots are free for each new range |
| KvmListener.UpdateSlots | memory.c:758-764 | a topology update takes slots that show the old view to slots that show the new one and nothing else; it fails only when fewer than two slots are free for each range that only one of the views has |
| KvmListener.WholePages | kvm-all.c:643-654 | an address of a view's range has its host address if and only if the range is to be backed, its start and size agree modulo the page size, and the address is in a whole page |
| KvmListener.GuestFinds | kvm-all.c:656-666 | where the slots show the view of a tree, an address that is to be backed has the host memory of the region the tree means there, at the offset the tree gives |
| KvmListener.GuestFindsNothing | kvm-all.c:656-666 | an address where the tree means nothing has no host memory |
| CopyOnRead.RoundedContains | block.c:1893-1909 | the rounded range holds exactly the sectors of the clusters it touches |
| CopyOnRead.OverlapIsSharing | block.c:1911-1922 | the overlap test against the rounded range is the test for a common cluster |
| CopyOnRead.ArriveExact | block.c:2513-2530 | an arriving request waits if and only if it is a copy-on-read or one is about, and a request under way shares a cluster with it; it waits for such a one |
| CopyOnRead.RetryExact | block.c:1924-1958 | a request that scans again waits if and only if a request under way shares a cluster with it |
| CopyOnRead.ArriveInv | block.c:2500-2530 | a request enters, waiting or tracked, without breaking the invariant |
| CopyOnRead.RetryInv | block.c:1924-1958 | scanning again after a wait |
| CopyOnRead.StoreInv | block.c:2468-2478 | writing the bounce buffer back changes no visible byte |
| CopyOnRead.WriteAvoidsBounce | block.c:2610-2664 | a sector a guest write touches is in no copy-on-read's bounce buffer |
| CopyOnRead.GuestWriteInv | block.c:2610-2664 | a guest write shows, and leaves every bounce buffer fresh |
| CopyOnRead.EndInv | block.c:1863-1870 | the end of a request, finished or failed, and the waking of those that wait for it |
| CopyOnRead.StepInv | block.c:1863-1958 | every step of every request keeps the invariant |
| CopyOnRead.EveryRun | block.c:2431-2664 | in every interleaving, requests that share a cluster are under way together only if neither is copy-on-read, bounce data is still what the disk shows, and the disk shows the guest's writes alone |
| CopyOnRead.EveryRead | block.c:2431-2595 | in every interleaving, what a read or a copy-on-read hands to the guest is what the guest's writes so far have left on the disk |
| CopyOnRead.EveryEnd | block.c:2431-2664 | in every interleaving a request that ends has read or written exactly its sectors since it arrived, or, for a copy-on-read, fetched and stored exactly those of its clusters; the clusters of a copy-on-read are then allocated |
| CopyOnRead.CopiesIfNeeded | block.c:2532-2549 | a copy-on-read fills its bounce buffer only while some cluster of its range is missing, and reads plainly only when none is |
| CopyOnRead.ClustersGrow | block.c:2468-2478 | no step takes a cluster away, and only a write to one of its sectors adds it |
| CopyOnRead.NoWaitCycle | block.c:1924-1958 | no cycle of requests waits for itself |
| CopyOnRead.CanProceed | block.c:1924-1958 | as long as there are requests, one of them can take a step of its own work, without any request failing |
| CopyOnRead.TrackedProceeds | block.c:1863-1958 | a request that is under way never waits: its next driver call, its next phase or its end is due |
| CopyOnRead.StepFalls | block.c:1863-1958 | every step but an arrival leaves less to do |
| CopyOnRead.NoEndlessRun | block.c:1863-1958 | without arrivals no execution goes on forever |
| CopyOnRead.AllEnd | block.c:1863-1958 | after any interleaving, once no more requests arrive, an execution that goes on as long as it can reaches a point where all requests have ended and the disk shows exactly the guest's writes |
| MultiWrite.Concat | util/iov.c:341-345 | the destination followed by the first bytes of the source, cut inside a segment where need be |
| MultiWrite.TakenIs | util/iov.c:307-335 | what is taken of a vector is the prefix of its bytes |
| MultiWrite.TakenFilled | util/iov.c:307-335 | no segment taken is empty |
| MultiWrite.CombinedIs | block.c:3478-3496 | the merged request is the earlier one up to where the later one starts, then the later one |
| MultiWrite.CombinedByte | block.c:3478-3496 | byte by byte: the later request wins, and nothing of the earlier one remains behind it |
| MultiWrite.Combine | block.c:3478-3496 | the request built in the loop is that merged request |
| MultiWrite.Merge | block.c:3454-3508 | in place: the array's first entries become the merged list of the sorted requests, none with more segments than the host accepts if none had before |
| MultiWrite.JoinedExactly | block.c:3465-3477 | a request is merged if and only if it begins no later than the one before it ends and their segments plus one are within the limit; otherwise it is taken over as it is |
| MultiWrite.MergedAccepted | block.c:3474-3476 | if every original is within the segment limit, so is every merged request |
| MultiWrite.ApartOnly | block.c:3465-3508 | neighbours in the merged list are apart only where there is a gap between them or no room |
| MultiWrite.MergedAfter | block.c:3454-3508 | a sector that is not lost reads the same after the merged requests as after the originals |
| MultiWrite.RisingEndsSafe | block.c:3454-3508 | requests that end in the order they start lose nothing: same disk for every disk |
| MultiWrite.MergeSafe | block.c:3454-3508 | where every dropped sector is written again later the disks are the same, refused merges or not |
| MultiWrite.MergedSegments | block.c:3468-3476 | a merged request has no more segments than went into it, so a list with few enough is never refused |
| MultiWrite.MergeExactRoomy | block.c:3454-3508 | when all segments together are below the limit: the disks are the same, whatever was on it, if and only if no sector between the end of a request and the later end of the one before it is left unwritten by all later ones |
| MultiWrite.MergeExact | block.c:3454-3508 | with any segment limit: merged and original requests of a shape give the same disk for all data and all disks if and only if every dropped sector is written again later |
| MultiWrite.LostShape | block.c:3454-3508 | what is lost depends on sectors and segment lengths alone, not on the data |
| MultiWrite.DroppedSame | block.c:3478-3496 | what the merged requests show at a sector dropped for good does not depend on the request that was to write it |
| MultiWrite.MergeLosesTail | block.c:3454-3508 | two requests for which the disks differ |
| MultiWrite.MultiwriteCB.constructor | block.c:3541-3556 | as many callbacks as originals, as many completions to come as merged requests |
| MultiWrite.MultiwriteCB.Complete | block.c:3416-3431 | the first error is kept; callbacks fire only at the last completion |
| MultiWrite.MultiwriteCB.UserCallbacks | block.c:3403-3414 | every callback once, in order, with the error |
| MultiWrite.CompleteAll | block.c:3403-3431 | over any sequence of completions every callback fires exactly once, with the first error |
| MultiWrite.FirstErrorIs | block.c:3416-3431 | that error is the first negative result, or 0 if there is none |
| MultiWrite.AioMultiwrite | block.c:3524-3563 | the merged requests are submitted, within the segment limit, and over one completion for each every original callback fires once, in order, with the first error; nothing without requests or without a medium |
| RamBlocks.FindNext | exec.c:1018-1026 | the lowest block start at or after an address |
| RamBlocks.GapIsFree | exec.c:1017-1031 | no block reaches into the gap after a block |
| RamBlocks.GapIsAll | exec.c:1017-1031 | and no longer run from the block's end is free |
| RamBlocks.BestFit | exec.c:1028-1032 | best fit in terms of free space: no place where the size fits has less free space behind it than the chosen one, and no earlier one as little |
| RamBlocks.FindRamOffset | exec.c:1007-1040 | offset 0 in an empty list; else the end of the first block whose following gap is the smallest sufficient one; abort if and only if there is none |
| RamBlocks.FindSucceeds | exec.c:1007-1040 | there is such a gap if and only if some free run of the size lies above some block |
| RamBlocks.LowSpaceUnused | exec.c:1007-1040 | a free page at 0 that is not found |
| RamBlocks.PageAlignIs | exec.c:1120-1120 | sizes are rounded up to pages, except that the last page's worth of sizes wraps to 0 |
| RamBlocks.RamList.Alloc | exec.c:1114-1169 | the new block is page aligned, overlaps none, is placed by best fit and listed before the first smaller block; the cache is cleared; the aborts are exactly a size that wraps to 0 and no gap |
| RamBlocks.RamList.Insert | exec.c:1156-1166 | blocks stay sorted from biggest to smallest and disjoint |
| RamBlocks.RamList.Free | exec.c:1192-1249 | exactly the block that starts at the address goes, and with it the cache |
| RamBlocks.RemovedIs | exec.c:1218-1222 | a block remains if and only if it starts elsewhere |
| RamBlocks.FreeUndoesAlloc | exec.c:1114-1249 | freeing what was just allocated gives back the list, order included |
| RamBlocks.WrapsIsHas | exec.c:1319-1324 | the single unsigned comparison is the range test |
| RamBlocks.RamList.GetBlock | exec.c:1313-1334 | through the cache or not, the one block that has the address, or an abort when none has |
| RamBlocks.RamList.LastOffset | exec.c:1042-1051 | the end of the highest block |
| Tlb.EntryForIs | cputlb.c:282-323 | a tag hits for exactly the accesses the protection allows, and only plain dirty RAM is written directly |
| Tlb.EntryFlags | cputlb.c:282-323 | which accesses go to the I/O callbacks, which to the code that marks a page dirty and which straight to memory, for reads, writes and code |
| Tlb.IndexSame | cputlb.c:296-296 | two addresses share a slot if and only if their page numbers agree in the low eight bits |
| Tlb.CpuTlb.Flush | cputlb.c:55-80 | every entry is empty and the region is empty |
| Tlb.CpuTlb.FlushSlot | cputlb.c:82-92 | exactly an entry that matches the page is emptied |
| Tlb.CpuTlb.FlushModes | cputlb.c:117-121 | the page's slot in every MMU mode |
| Tlb.CpuTlb.FlushPage | cputlb.c:94-124 | afterwards no live entry in any mode is a piece of a mapping that contains the address, large mappings included; outside the large-page region no entry of another page changes |
| Tlb.FlushedGone | cputlb.c:94-124 | why: a large mapping lies in the region, a small one in the page's slot |
| Tlb.Widen | cputlb.c:243-248 | the loop ends with the finest mask whose region holds both the old region and the new page |
| Tlb.CpuTlb.AddLargePage | cputlb.c:230-249 | every large mapping since the last full flush lies in the region, which is the smallest such |
| Tlb.CpuTlb.SetPage | cputlb.c:254-325 | the slot holds the mapping's entry, all other slots are unchanged, and the invariant is kept |
| RamMigration.Migration.constructor | arch_init.c:609-645 | all pages up to the end of RAM are marked, holes included, and counted |
| RamMigration.Migration.FindNextBit | arch_init.c:353-353 | the first marked page of the block at or after the start |
| RamMigration.Migration.FindAndReset | arch_init.c:339-360 | in any state, the count keeps its distance to the number of marked pages if and only if the page found was marked |
| RamMigration.Migration.SetDirty | arch_init.c:362-374 | the page is marked and the count stays right |
| RamMigration.Migration.GuestWrite | arch_init.c:401-409 | a guest write changes the page and is logged |
| RamMigration.Migration.Sync | arch_init.c:378-409 | exactly the logged pages of blocks become marked and leave the log |
| RamMigration.Advance | arch_init.c:469-476 | a block without a dirty page is passed, and after the last block the round goes on at the first |
| RamMigration.Found | arch_init.c:465-478 | the page found is the first dirty one of the round; in the bulk stage everything behind it is still dirty |
| RamMigration.RoundOver | arch_init.c:465-468 | back at the cursor nothing is dirty, or the one dirty page is dropped |
| RamMigration.Migration.Search | arch_init.c:453-478 | terminates; finds a page unless nothing is dirty or the dropping case holds; the count stays right |
| RamMigration.Migration.Send | arch_init.c:478-525 | the receiver, which knows the block from an earlier header, stores the page's content in the right place; it is never told the name of the block it is in, nor sent a page of zeros |
| RamMigration.Migration.SaveBlock | arch_init.c:451-533 | the first dirty page of the round is sent and only its bit cleared; 0 if and only if nothing is dirty or a page is dropped; a page is dropped if and only if the stated condition holds |
| RamMigration.SavesUnique | arch_init.c:451-533 | what one save does to bitmap, cursor and bulk flag is a function of them |
| RamMigration.Migration.Complete | arch_init.c:724-753 | terminates with no block page marked or logged, and the receiver has every page but the lost ones as it is here, and the lost ones as it had them; this call drops the last page if and only if the stated condition holds, and an earlier lost page stays lost if and only if it is not marked again |
| RamMigration.Migrate | arch_init.c:589-753 | any run of writes, syncs and saves, then completion: RAM is what the writes make it; the receiver has every page but the very last one as it is here; the last one it has as it is here unless the run ends with it lost, and then as it was when last sent; without a save or completion entered where a page is dropped it is not lost |
| RamMigration.Happen | arch_init.c:378-533 | each write, sync and save does to bitmap, log and cursor what the trace says, to RAM what the write says, and to the receiver the one page that is sent |
| RamMigration.TraceUnique | arch_init.c:589-753 | the events and the first state determine the trace, so when a page is dropped can be told from the events alone |
| RamMigration.SameTrace | arch_init.c:451-533 | what the guest writes does not decide where the search goes |
| RamMigration.SentBefore | arch_init.c:451-533 | only a page that was sent can be dropped |
| RamMigration.SentTwice | arch_init.c:378-533 | a page is sent twice only for a write between the two, or one still in the log at the first |
| RamMigration.MigrateExact | arch_init.c:589-753 | from setup on, a run brings the last page over for all RAM contents and all data written if and only if the page is not lost for good or was not written after its last sending |
| RamMigration.DropExample | arch_init.c:451-533 | a run of two pages that ends with nothing marked and the receiver a write behind |
| MemoryMapping.PhysBlockList.RegionAdd | memory_mapping.c:196-257 | joined to the last block when continuous in guest and host memory, else a new block; no other address changes |
| MemoryMapping.PhysBlockList.AddRange | memory_mapping.c:196-220 | ranges that are not RAM are passed over |
| MemoryMapping.PhysBlockList.Append | memory_mapping.c:259-267 | the blocks are ascending, none could be joined with the next, and give every address the host address the flat view gives it |
| MemoryMapping.BlocksUnique | memory_mapping.c:196-257 | two block lists in order with nothing left to join that describe the same memory are equal |
| MemoryMapping.MappingList.Create | memory_mapping.c:24-51 | in order of physical address, before its equals |
| MemoryMapping.MappingList.Simple | memory_mapping.c:314-323 | one mapping a block, in order, without virtual address |
| MemoryMapping.ClipIs | memory_mapping.c:338-348 | clipping keeps exactly the addresses in the range and where they are mapped |
| MemoryMapping.FilteredMaps | memory_mapping.c:325-350 | after filtering exactly the mapped addresses in the range are mapped |
| MemoryMapping.MappingList.Filter | memory_mapping.c:325-350 | the in-place loop leaves that list and its count |
| Dump.MemoryAt | dump.c:643-670 | where each byte of each block is among the bytes written |
| Dump.DumpState.WriteMemory | dump.c:394-417 | page by page and the rest: exactly the bytes of the range |
| Dump.GetOffsetRange | dump.c:420-479 | -1 if and only if the address is not written; else its offset and the size that does not spill over the block or the range |
| Dump.DumpState.GetStartBlock | dump.c:689-715 | the first block the range meets, or failure if and only if it meets none |
| Dump.DumpState.GetNextBlock | dump.c:615-640 | the next such block, or the end |
| Dump.DumpState.WriteBlock | dump.c:648-658 | the part of the block in the range is appended |
| Dump.DumpState.Iterate | dump.c:643-670 | the memory part is every block's part in the range, in order |
| Dump.DumpState.Count | dump.c:789-829 | how the mappings are announced and where memory will begin, with and without a section header, for both ELF classes |
| Dump.HeadersAre | dump.c:789-829 | in numbers, the room the headers take and the counts announced |
| Dump.DumpState.WriteLoads | dump.c:481-517 | one header for every mapping announced, its fields cut to the width of the ELF class |
| Dump.EncodedIs | dump.c:191-242 | a header gives its values back if and only if the fields of its class can hold them |
| Dump.FieldsAre | dump.c:191-242 | in numbers, what the header fields of the two ELF classes can hold |
| Dump.SmallFits | dump.c:218-242 | they can when the file and the mapped addresses stay below 2^32 |
| Dump.SmallWraps | dump.c:218-242 | a header in a dump of 4 GB that is right and cannot be read back |
| Dump.DumpState.Begin | dump.c:520-606 | the headers take exactly the room counted for them |
| Dump.DumpState.GetMappings | dump.c:773-787 | the mappings of the page tables or one a block, filtered |
| Dump.DumpState.Init | dump.c:744-829 | the blocks represent the flat view; failure, for a range that is not empty, if and only if nothing is to be stored |
| Dump.LoadMaximal | dump.c:462-472 | a size cut short ends where the block or the range ends |
| Dump.LoadBytes | dump.c:420-479 | the file byte at a header's offset plus i is the guest's byte at its physical address plus i |
| Dump.AllDumped | dump.c:420-479 | without page tables every stored address is in some header's part of the file |
| Dump.DumpGuestMemory | dump.c:672-829 | the whole dump: the mappings described are those of the page tables or the blocks, filtered; the headers take exactly the room announced for them; memory follows, block by block; every header points at the guest's bytes, with or without a range, and can be read back from the file if its class can hold it; without page tables every stored address is covered |

## Left out

- Memory: the length results of `address_space_translate` and the IOMMU loop; only region and offset are stated.
- Memory: reference counts, mutexes, destruction of regions, eventfds and coalesced MMIO; they do not affect which region answers.
- AddressSpace.UpdateTopology: when the tree answers beyond what a page table can name, the original goes on with page numbers that wrap; the model reports this and leaves the table alone.
- MemoryApi.MemoryCore.Rebuild: from then on, until a rebuild in which every tree fits, only the maps are stated to be current, not the tables.
- MemoryApi.MemoryCore.Translate: for the same reason only while every tree fits the tables, and for a space that has a table.
- MemoryApi.MemoryCore.AddSubregion: the caller supplies a ranking that rules out cycles, which the original does not test for.
- KVM: the `broken_set_mem_region` workaround, slot flags, dirty logging and the ioctls, which are assumed to succeed.
- KvmListener.UpdateSlots: what the slots hold when an update runs out of them is not stated; the original aborts.
- Copy-on-read: drivers read and write single sectors atomically; discards, zero writes and throttling are not modelled; the cluster size is fixed.
- MultiWrite.Merge: the list is sorted before the call; qsort itself and its order among equal sectors are not modelled.
- MultiWrite.MergeExact: for given data and refused merges the disks may also agree by chance, since a dropped sector may lie in an earlier request too; hence the statement over all data.
- MultiWrite.AioMultiwrite: the error stored in each request when there is no medium.
- RAM blocks: how host memory is obtained, the phys_dirty array and the block names; addresses do not overflow because every block ends below 2^64.
- TLB: the iotlb and addend values, the jump cache, and vaddr that are not page aligned or sizes that are not powers of two, which no caller passes; whether a watchpoint applies to a page is an input; page sizes are those of the targets, 2^10 to 2^13.
- Migration: XBZRLE, RDMA, throttling, statistics and rate limits; blocks are whole pages and as long as their regions; page numbers do not overflow an int.
- Migration: a change of the block list during migration, after which the bulk shortcut no longer holds; `FindAndReset` states exactly when the count then drifts.
- Migration: the receiver's section with block names and lengths, which are taken to agree.
- Dump: header and note contents other than PT_LOAD, byte order, write errors, walking page tables (the mappings are an input), and addresses or ranges whose ends overflow 63 bits.
- Dump.DumpGuestMemory: without a range there must be some RAM; the original otherwise follows a null pointer.
- Block migration, device models, the monitor and the gdb stub: not part of this model.
