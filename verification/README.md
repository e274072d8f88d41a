# Verified models of the RESENTMENT kernel's portable cores

This project models the portable algorithms of the RESENTMENT kernel in Dafny and proves what they are for.
Each component is one or a few modules; `dfyconfig.toml` covers them all.

* **Page tables** (`PageTree`, `PageTables`, `LargePages`, `X86Paging`, `Arm64Paging`). A tree of tables with
  1 GiB, 2 MiB and 4 KiB leaves, updated in place, behaves like a flat map from page to frame and protection.
* **Lazy Merkle graph** (`Bytes`, `DigestOrder`, `DigestSelect`, `GraphEncoding`, `GraphState`, `GraphFrames`,
  `GraphEdges`, `AttrOrder`, `GraphDestroy`, `GraphIdentity`, `RuntimeGraph`). Cached digests agree with a recursion from scratch
  and identify whole subtrees.
* **Paged KV cache** (`KvPages`, `KvCache`, `KvRun`). Shared, counted pages refine private page lists over whole runs.
* **Kernel heap** (`SlabGeometry`, `SlabState`, `SlabHeap`, `HeapState`, `KernelHeap`). Free lists threaded
  through memory words, slab lists, headers; allocations are disjoint and are given back exactly.
* **Temporal authority** (`ReplayLedger`, `TemporalSeal`, `CapState`, `Capabilities`, `CapRun`). Bounded replay memory,
  windows, attenuation and revocation over whole runs.
* **Concurrency primitives** (`RingBuffer`, `TicketLock`). Every atomic access is a step; all interleavings,
  with 32-bit wrap.
* **Arithmetic and codecs** (`FixedSine`, `LongDivision`, `Calendar`, `Base64`, `StreamHash`, `MemoryFabric`) and
  **path resolution** (`PathResolution`).

`Common` and `Arith` hold shared datatypes and facts about division.

What the proofs assume of the surroundings is in the contracts: the page allocator hands out any block on its own
size and clear of those outstanding, or nothing; the hash is a function, and statements that need it not to collide
name the strings; the MAC, digest and key stream are functions; the clock is a parameter, never negative where a
capability is derived, and does not run backwards.

Where the code does something other than its comments say, the model follows the code:

* Destroying a graph node does not invalidate the sources of its incoming edges, though they hash their edge count
  (`kernel/graph/graph.c:241-246` against `:524`). `RuntimeGraph.Graph.NodeDestroy` states when caches stay right, and when not.
* Out-edges are hashed in list order, though the comment says sorted (`kernel/graph/graph.c:523-529`); only children are
  order-independent. `GraphState.DigestIdentity`.
* An attribute key longer than fifteen characters never matches its stored form (`kernel/graph/graph.c:286-309`), so while a
  slot is left setting it again adds an entry. `AttrOrder.SetTwice`.
* The order in which attributes are set can show, though the list is sorted (`kernel/graph/graph.c:283-309`): of two new keys
  that compete for the twelfth slot the first is kept, and keys too long for their field that are stored alike lie in the order
  they were set. `AttrOrder.PutOrder`, `AttrOrder.LongKeysShow`, `GraphIdentity.SetOrder`.
* The digest of a KV page does not cover its token count (`kernel/ai/kv.c:152-173`), so an adopted page keeps the first
  one. `KvCache.Kv.Append` says when, `KvRun.AdoptedCount` shows it.
* Rounding tokens up to pages wraps (`kernel/ai/kv.c:220`, `:245`): trimming or forking at 2^32 - 15 tokens or more keeps no page.
  `KvPages.PagesCover`.
* Forking into a sequence that has pages loses their references (`kernel/ai/kv.c:233`). `KvCache.Kv.Fork`.
* `arch_unmap` on x86-64 clears whole leaves (`arch/x86_64/paging.c:250-255`). `X86Paging.ArchUnmap`, `X86Paging.Run`.
* A slab object freed twice is caught, but as a bad header: the free-list pointer has replaced the freed mark
  (`kernel/mm/kheap.c:204`, `:363-370`). `HeapState.SlotRefused`, `KernelHeap.Heap.KFree`.
* A message can be accepted twice if its window is longer than 121 seconds (`kernel/crypto/kaalka.c:408-409`).
  `TemporalSeal.Twice`, `TemporalSeal.TwiceAfterLongLife`.
* The tangent and the cotangent from 58 to 171 units of 2^-32 degree off an asymptote are not clamped but wrap
  (`kernel/crypto/kaalka.c:36-40` against `:97-119`). `FixedSine.TangentWraps`, `FixedSine.CotangentWraps`. No clock takes
  either of such an angle: `FixedSine.ShortWay`.
* A derived capability outlives its parent when the lifetime and the time of day add up to exactly 2^64
  (`kernel/cap/cap.c:381-389`), since an end of zero means none. `CapState.DeriveShortens`.
* Deriving does not look at the parent's generation (`kernel/cap/cap.c:376`), so revocation does not end the authority of a
  handle that may derive (`:457-459`): it is refused, and mints a child that is granted. `Capabilities.DeriveAfterRevoke`.
* A used-up single-use handle keeps its reference and its place in the slot count (`kernel/cap/cap.c:347-351`); the laws
  of counts in `CapState` include those.
* The header of a serialised fabric is written as it lies in memory, not big-endian (`kernel/graph/memfab.c:190-192` against
  `:214-220`); `MemoryFabric.Header` is little-endian.
* An absolute path leaves the base directory (`kernel/fs/vfs.c:98` against `:5-8`). `PathResolution.Boundary`.
* With 32-bit tickets a processor held up inside `spin_trylock` for 2^32 tickets can enter a lock that is held
  (`include/rk/spinlock.h:41-51`). `TicketLock.LateSwapBreaks`.
* `ringbuf_used` asked by a third party can exceed the capacity (`include/rk/ringbuf.h:32-35`). `RingBuffer.UsedWraps`.
* 128-bit division of the least number by minus one gives the least number (`kernel/lib/int128.c:77-84`). `LongDivision.SDiv`.

## Model

| member | source | states |
|---|---|---|
| `PageTree.LookupElsewhere` | arch/x86_64/paging.c:126-147 | A rewritten table entry is invisible to the hardware walk of every page it does not serve, because tables form a tree. |
| `PageTree.RewriteEffect` | arch/x86_64/paging.c:149-175 | What one entry write does to the whole address space: the pages under it get the meaning of the new entry, all others keep theirs. |
| `PageTree.SplitMeaning` | arch/x86_64/paging.c:97-121 | A table of smaller leaves filled as a split fills it translates every page as the leaf it replaces, at 2 MiB and at 1 GiB. |
| `PageTree.LookupVia` | arch/x86_64/paging.c:212-236 | The walk for a page factors through any table it reaches. |
| `PageTree.RunShared` | arch/x86_64/paging.c:212-236 | All pages under one leaf find that same leaf. |
| `PageTree.IndexBits` | arch/x86_64/paging.c:126-147 | A page number is the four table indexes, nine bits each, the top level first. |
| `PageTables.Tables.constructor` | arch/x86_64/paging.c:331-348 | A fresh table tree is well formed and maps nothing. |
| `PageTables.Tables.SplitHuge` | arch/x86_64/paging.c:97-121 | Splitting keeps the tree well formed and leaves the flat page map unchanged, or changes nothing when no page could be allocated. |
| `PageTables.Tables.Walk` | arch/x86_64/paging.c:126-147 | One step down, creating or splitting on request: the flat page map is unchanged; it fails without creating only where there is no table, and with creating only after a refused allocation. |
| `PageTables.Tables.SetEntry` | arch/x86_64/paging.c:149-175 | Exactly the pages under the entry change, to what the entry says. |
| `X86Paging.ProtRoundTrip` | arch/x86_64/paging.c:62-83 | Which protections read back differently from what was asked: reading is always granted, execution cannot be denied without NX, cache and global hints are lost. |
| `X86Paging.MapOne` | arch/x86_64/paging.c:149-175 | Installing one leaf changes exactly its aligned run of pages; on failure the map is as before. |
| `X86Paging.MapHere` | arch/x86_64/paging.c:177-207 | One turn of the loop maps the run of one leaf and nothing else: 1 GiB if the processor has it and address, frame and range left allow it, else 2 MiB if they do, else 4 KiB. |
| `X86Paging.ArchMap` | arch/x86_64/paging.c:177-207 | On success every byte of the range is mapped at its place, pages without one are as they were, and the bits of the entry are those asked for, write-through, cache disable and global included, whatever leaf sizes were chosen; on failure a proper prefix was mapped and nothing else. |
| `X86Paging.FindLeafEx` | arch/x86_64/paging.c:212-236 | The entry found decides the page; splitting on the way changes no translation. |
| `X86Paging.ProtectHere` | arch/x86_64/paging.c:260-295 | One turn changes attributes only on named pages, splitting a leaf that is only partly named. |
| `X86Paging.ArchProtect` | arch/x86_64/paging.c:260-295 | Exactly the mapped pages of the range change attributes, to the bits asked for, and no frame changes; where a split was refused, only protections of named pages can differ. |
| `X86Paging.ArchTranslate` | arch/x86_64/paging.c:297-310 | The reported physical address and protection are those of the flat page map, with the byte offset kept, for every leaf size. |
| `X86Paging.UnmapHere` | arch/x86_64/paging.c:243-258 | The whole leaf around the address disappears, whatever its size. |
| `X86Paging.ArchUnmap` | arch/x86_64/paging.c:243-258 | Unmapping removes exactly the named pages if and only if no larger leaf straddles an end of the range; in every case whole leaves go and nothing else moves. |
| `X86Paging.UnmapExact` | arch/x86_64/paging.c:243-258 | Removing whole leaves equals removing a page range only if every leaf meeting the range lies inside it. |
| `X86Paging.Run` | arch/x86_64/paging.c:177-310 | Over any sequence of map, unmap and protect calls with no refused allocation the tables agree all along with a flat page map changed only on the named pages, if and only if no unmap call meets a larger leaf across an end of its range. |
| `Arm64Paging.ProtRoundTrip` | arch/aarch64/arch.c:443-473 | Which protections read back changed: reading is always granted, and a user page never reports execution. |
| `Arm64Paging.MapOne` | arch/aarch64/arch.c:574-585 | Installing one page changes exactly that page. |
| `Arm64Paging.ArchMap` | arch/aarch64/arch.c:587-616 | On success every byte of the range is mapped at its place and pages without one are as they were, as device memory exactly below the RAM base, with the access, global and execute-never bits asked for; on failure a proper prefix. |
| `Arm64Paging.FindLeaf` | arch/aarch64/arch.c:618-643 | The entry found decides the page; with splitting it is a 4 KiB entry, and no translation changes. |
| `Arm64Paging.ArchUnmap` | arch/aarch64/arch.c:645-660 | Splitting first, unmapping removes exactly the named pages; a refused split can leave a named page mapped and touches no other. |
| `Arm64Paging.ArchProtect` | arch/aarch64/arch.c:662-693 | Exactly the mapped pages of the range change attributes, to the bits asked for, keeping their memory type. |
| `Arm64Paging.ArchTranslate` | arch/aarch64/arch.c:695-715 | The reported address and protection are those of the flat page map. |
| `Arm64Paging.Run` | arch/aarch64/arch.c:574-715 | Over any sequence of map, unmap and protect calls with no refused allocation the tables agree with a flat page map changed only on the named pages. |
| `GraphEncoding.EncodeInjective` | kernel/graph/graph.c:444-532 | The byte string hashed for a node determines its kind, label, attribute list, child digests and edges. |
| `GraphEncoding.EncodeFlat` | kernel/graph/graph.c:444-532 | The string built piece by piece, as the hash is fed, is that encoding. |
| `GraphEncoding.TypeWords` | kernel/graph/graph.c:456-468 | For each attribute the key, the word of its type (1 unsigned, 2 signed, 3 text, 4 truth value, 5 digest) and its value are fed. |
| `GraphEncoding.SetAttrAt` | kernel/graph/graph.c:286-309 | Insertion found by scanning to the first larger key is insertion into the ascending list. |
| `GraphEncoding.SetAttrUpdates` | kernel/graph/graph.c:286-309 | With room, setting an attribute updates the key-value map at that key and keeps the list ascending. |
| `GraphEncoding.AttrsCanonical` | kernel/graph/graph.c:286-309 | Two ascending attribute lists with the same key-value map are the same list. |
| `AttrOrder.PutOrder` | kernel/graph/graph.c:286-309 | Setting two keys of any length in either order, on any list, gives the same list if and only if the order does not show: keys stored differently are not both new with one slot left of twelve; keys stored alike are not two long ones with different values and a slot left, nor a long one and a new short one with two. |
| `AttrOrder.PutOrderShows` | kernel/graph/graph.c:286-309 | With eleven attributes set, the two orders of setting two more keep different ones. |
| `AttrOrder.LongKeysShow` | kernel/graph/graph.c:286-309 | On an empty node, two keys of sixteen characters that differ in the last one, with different values, lie in the order they were set. |
| `AttrOrder.PutAllCanonical` | kernel/graph/graph.c:286-309 | With slots for all the keys, two runs of sets of keys that fit their field, giving each the same last value, leave the same list, whatever their order. |
| `AttrOrder.SetTwice` | kernel/graph/graph.c:286-309 | Setting a key twice leaves what setting only the second value would, if and only if the key fits its 16-byte field, or no slot was left for the first set, or none for the second and the values are the same. |
| `AttrOrder.LongKeyFills` | kernel/graph/graph.c:286-309 | A key that does not fit takes another slot every time it is set, until all twelve are taken. |
| `DigestOrder.SortCanonical` | kernel/graph/graph.c:491-521 | Two lists of digests have the same sorted form exactly when they are equal as multisets. |
| `DigestSelect.PickedNext` | kernel/graph/graph.c:491-521 | One round of the selection loop (smallest digest beyond the last, repeated as often as it occurs) extends the sorted multiset emitted so far. |
| `DigestSelect.PickedAll` | kernel/graph/graph.c:491-521 | When nothing is left beyond the last digest, everything has been emitted, in sorted order. |
| `RuntimeGraph.Graph.NextSmallest` | kernel/graph/graph.c:497-506 | The digest chosen is the least child digest beyond the last one emitted, if there is one. |
| `RuntimeGraph.Graph.EmitChildren` | kernel/graph/graph.c:491-521 | The loop terminates having fed the hash the sorted multiset of child digests. |
| `GraphState.CoherentFrame` | kernel/graph/graph.c:444-548 | A mutation keeps every cached digest right if each node still valid hashes the same contents over the same still-valid children. |
| `GraphState.KidDigestsRight` | kernel/graph/graph.c:475-489 | Where caches are right, the digests stored in the children are those a recursion from scratch computes. |
| `GraphState.DigestIdentity` | kernel/graph/graph.c:444-532 | Without a collision of the two hashed strings, digests are equal exactly when kind, label, attributes, edge sequence and multiset of child digests are. |
| `GraphIdentity.DigestTells` | kernel/graph/graph.c:444-532 | The same in terms of the graph: equal out lists mean that at each place the kinds of the edges and the kinds of their targets agree. |
| `GraphIdentity.KidsAre` | kernel/graph/graph.c:475-489 | The children that count are those not ephemeral, in their order. |
| `GraphIdentity.TreeWhole` | kernel/graph/graph.c:376-418 | In a tree every edge out of a node is there with its target. |
| `GraphIdentity.AlwaysFits` | kernel/graph/graph.c:444-532 | The attributes of a node never leave the words their number is fed in. |
| `GraphIdentity.SubtreeIdentity` | kernel/graph/graph.c:444-532 | Without collisions, two nodes have equal digests exactly when everything below them is equal: kinds, labels, attributes, the kinds of edges and of their targets, and the subtrees, the order of siblings aside. |
| `GraphIdentity.SetOrder` | kernel/graph/graph.c:286-365 | Two keys of any length set at a node in either order leave every digest of the graph the same when the order does not show in the list; when it does, the digest of the node differs, barring a collision. |
| `GraphFrames.Invalidated` | kernel/graph/graph.c:183-189 | A change confined to a node, followed by invalidation up to the root, keeps every remaining cached digest right. |
| `RuntimeGraph.Graph.InvalidateUp` | kernel/graph/graph.c:183-189 | Exactly the nodes from the given one up to the root lose validity. |
| `RuntimeGraph.Graph.NodeCreate` | kernel/graph/graph.c:191-225 | The new node hangs at the end of its parent or the root, the path up from there is invalidated and nothing else changes; cached digests stay right. |
| `RuntimeGraph.Graph.AttrSlot` | kernel/graph/graph.c:286-309 | The shifting loop gives the ascending list with the key set, or refuses a new key when all slots are taken. |
| `RuntimeGraph.Graph.Set` | kernel/graph/graph.c:311-365 | The attribute is set and the path up invalidated, or nothing changes when it is refused; cached digests stay right, and lists stay ascending when the key fits its field. |
| `RuntimeGraph.Graph.Touch` | kernel/graph/graph.c:270-279 | The path up from the node is invalidated and nothing else changes; cached digests stay right. |
| `RuntimeGraph.Graph.Link` | kernel/graph/graph.c:381-404 | One edge is added at the end of both lists and the path up from its source invalidated, nothing else; cached digests stay right. |
| `RuntimeGraph.Graph.Unlink` | kernel/graph/graph.c:406-418 | One edge leaves both lists and the path up from its source is invalidated, nothing else; cached digests stay right. |
| `RuntimeGraph.Graph.NodeDestroy` | kernel/graph/graph.c:227-268 | The children follow, in their order, the other children of the parent; edges at the node leave both lists; every other node keeps its own fields, and validity goes exactly on the path up. Cached digests all stay right when every counted edge into the node comes from that path, and only then when the hash has no collision. |
| `GraphDestroy.GoneCoherent` | kernel/graph/graph.c:227-268 | If every counted incoming edge is covered by the invalidation, all caches stay right. |
| `GraphDestroy.GoneStale` | kernel/graph/graph.c:227-268 | If one is not covered, its source keeps a digest that counts an edge no longer there. |
| `RuntimeGraph.Graph.NodeDigest` | kernel/graph/graph.c:444-532 | The digest returned is the one a recursion from scratch computes over the subtree, reusing valid caches below. |
| `RuntimeGraph.Graph.GetDigest` | kernel/graph/graph.c:534-548 | The same after any history of operations that kept caches right; the structure is untouched. |
| `KvPages.PreimageInjective` | kernel/ai/kv.c:152-159 | The hashed string of layer, position and contents determines them. |
| `KvPages.RefsUpdate` | kernel/ai/kv.c:118-259 | How replacing one sequence changes the number of slots that point at a page. |
| `KvPages.PagesCover` | kernel/ai/kv.c:100-245 | The number of pages for some tokens is the least multiple of the layers whose rows of sixteen tokens hold them, if and only if neither rounding up nor the product leaves 32 bits; from 2^32 - 15 tokens on it is zero. |
| `KvPages.OneCovering` | kernel/ai/kv.c:100-245 | There is one such number. |
| `KvCache.Kv.Create` | kernel/ai/kv.c:83-116 | A new sequence whose slots are the fewest rows of one page for each layer that hold the tokens asked for, if and only if the number fits 32 bits, and nothing else changed; refused exactly when a dimension is zero or memory is out. |
| `KvCache.Kv.PageLookup` | kernel/ai/kv.c:54-62 | A page with the digest and layer is found exactly when there is one. |
| `KvCache.Kv.EvictLocked` | kernel/ai/kv.c:64-81 | Frees only unreferenced pages, oldest first, and only as long as needed; ends within budget or with every remaining page referenced; every sequence reads back the same. |
| `KvCache.Kv.Destroy` | kernel/ai/kv.c:118-137 | Gives back exactly the references of the sequence and frees no page; the other sequences read back the same. |
| `KvCache.Kv.Append` | kernel/ai/kv.c:141-210 | On success the sequence reads back its old contents and the new page, barring a hash collision with a live page; every refusal leaves it as it was; reference counts, byte total and indexes stay exact, and a new page leaves the cache within budget or with every page referenced. The token count read back is the one appended if and only if every live page with that digest and layer has it. |
| `KvRun.AdoptedCount` | kernel/ai/kv.c:163-173 | The same contents appended with five and then with seven tokens: the second count is not read back. |
| `KvCache.Kv.Fork` | kernel/ai/kv.c:215-239 | The fork has the first slots of its source, all or the fewest rows that hold the tokens, and its own after them, and reads back the first pages; counts stay equal to the number of slots if and only if the destination had no pages. |
| `KvCache.ForkLaw` | kernel/ai/kv.c:215-239 | The law of reference counts after a fork holds exactly when the destination was empty. |
| `KvCache.Kv.Trim` | kernel/ai/kv.c:241-259 | The sequence keeps all its pages or the fewest rows that hold the tokens; exactly the references of the rest are given back and their slots cleared; nothing changes when none is to go. |
| `KvCache.Kv.PressureEvict` | kernel/ai/kv.c:264-273 | Eviction under pressure frees no referenced page and changes no sequence. |
| `KvCache.SlotsGone` | kernel/ai/kv.c:118-137 | Counts stay equal to slots when a sequence loses slots and their references together. |
| `KvRun.Step` | kernel/ai/kv.c:83-273 | Any one call on the shared cache does to every sequence, and answers, what it would with private page lists, unless two strings hashed so far collide. |
| `KvRun.Run` | kernel/ai/kv.c:83-273 | The same over any run of create, append, fork into an empty sequence, trim, destroy and eviction, from an empty cache; the private lists count a row for each sixteen tokens begun. |
| `SlabGeometry.SlabOfObj` | kernel/mm/kheap.c:120-124 | Masking an object address by the block size finds its slab, because blocks lie on their own size. |
| `SlabGeometry.ObjAligned` | kernel/mm/kheap.c:74-98 | Every object lies on the alignment of its cache, and on sixteen bytes. |
| `SlabGeometry.SlotsAreObjs` | kernel/mm/kheap.c:84-98 | The addresses threaded through a new slab are exactly those at which a whole object fits behind the slab header. |
| `SlabGeometry.SlotsApart` | kernel/mm/kheap.c:92-98 | Different objects of a slab do not overlap. |
| `SlabState.LiveInUse` | kernel/mm/kheap.c:196-214 | A live object keeps its slab in use: the count cannot already be zero. |
| `SlabState.ObjsApart` | kernel/mm/kheap.c:162-214 | Live objects, of any caches and slabs, are pairwise disjoint. |
| `SlabState.ApartMeans` | kernel/mm/kheap.c:74-110 | Blocks are apart exactly when they share no address. |
| `SlabState.AlwaysAvailable` | kernel/mm/kheap.c:74-110 | However many blocks are outstanding there is one of any size clear of them all, so what is assumed of the page allocator can be met. |
| `SlabHeap.Slabs.CacheCreate` | kernel/mm/kheap.c:126-160 | The slab order is the least that holds eight objects, or the largest; one object fits exactly when the rounded sizes come to at most 64 KiB. |
| `SlabHeap.Slabs.SlabNew` | kernel/mm/kheap.c:74-110 | A new slab has every slot on its free list and touches no other block. |
| `SlabHeap.Slabs.ThreadObjects` | kernel/mm/kheap.c:90-97 | The loop threads all slots into one null-terminated list, writing only inside the block. |
| `SlabHeap.Slabs.CacheAlloc` | kernel/mm/kheap.c:162-194 | An object that was not live becomes live, aligned; no word of an outstanding block changes; a new slab is made only when the cache has no object left; the heap invariant (acyclic in-slab free lists, exact counts, lists by occupancy) is kept; it fails only when the page allocator does. |
| `SlabHeap.Slabs.CacheFree` | kernel/mm/kheap.c:196-214 | Exactly that object stops being live, only its first word changes, and the invariant is kept. |
| `SlabHeap.Slabs.CacheDestroy` | kernel/mm/kheap.c:216-228 | Exactly the slabs with no live object are given back. |
| `KernelHeap.Heap.Init` | kernel/mm/kheap.c:240-250 | Each size class gets a cache shaped for its payload and header while the pool of caches lasts. |
| `KernelHeap.ClassOf` | kernel/mm/kheap.c:252-258 | The class chosen is the least that holds the request. |
| `KernelHeap.Heap.KmallocAligned` | kernel/mm/kheap.c:276-329 | A fresh aligned payload disjoint from all others whose contents are unchanged, of the least size class that holds it or of the least block that holds it with its header and alignment; it is refused exactly for a zero or oversized request, a missing class, or a refused block. |
| `KernelHeap.Heap.SlabAlloc` | kernel/mm/kheap.c:284-299 | The small path: an object of the class with its header in front. |
| `KernelHeap.Heap.PageAlloc` | kernel/mm/kheap.c:301-329 | The large path: a block of the least order, with the header just below the aligned payload, for every power-of-two alignment. |
| `KernelHeap.Heap.KFree` | kernel/mm/kheap.c:357-387 | Exactly the allocation goes, giving back its own object or its own whole block; anything without a live header is refused without effect; the freed pointer is then refused, marked as freed exactly when it had a block of its own. |
| `HeapState.LiveApart` | kernel/mm/kheap.c:276-329 | No live payload meets the header or payload of another. |
| `HeapState.SlotRefused` | kernel/mm/kheap.c:357-369 | A pointer to an object slot that is not live is refused by free for as long as it is not live, and never as a double free: a free-list pointer is neither the magic number nor the mark of a freed header. |
| `HeapState.BytesWithout` | kernel/mm/kheap.c:260-274 | The live byte count splits into one allocation and the rest. |
| `KernelHeap.Heap.KSize` | kernel/mm/kheap.c:349-355 | The size asked for, or zero where there is no live header. |
| `KernelHeap.Heap.KRealloc` | kernel/mm/kheap.c:389-407 | Growing moves the contents: the first bytes of the new payload are the old ones; shrinking stays in place; other payloads are unchanged. |
| `KernelHeap.PayloadWritten` | kernel/mm/kheap.c:276-329 | Whatever a caller writes inside its payload, the heap invariant and all other payloads survive. |
| `ReplayLedger.Ledger.Check` | kernel/crypto/kaalka.c:399-439 | Refused exactly when one of the eight slots from (subject times 0x9E3779B97F4A7C15 plus number) modulo 1024 on holds the message with an epoch no more than two ago; else written in the first of them that is not live, or over the first. An acceptance implies that every earlier one of the pair within two epochs has lost its record; from epoch three a refusal implies one that has not. An eviction takes eight live acceptances whose first slots are within seven places, and does not happen while all messages are of one subject with numbers in a range of 1024. |
| `ReplayLedger.Written` | kernel/crypto/kaalka.c:419-438 | Writing a record into one of its probe slots keeps the ledger exact: every remembered acceptance is in a probe slot, and slots hold nothing else. |
| `ReplayLedger.LaneGoesOn` | kernel/crypto/kaalka.c:402-428 | While records are of one subject with numbers in a range of 1024 each is in its first slot, and a message not remembered finds its own free. |
| `TemporalSeal.FreshSealAccepted` | kernel/crypto/kaalka.c:341-388 | A new seal verifies exactly at the times inside its window. |
| `TemporalSeal.SealBinds` | kernel/crypto/kaalka.c:319-339 | With an injective MAC, an accepted seal has the epoch, subject, number, window and payload its MAC was made for. |
| `TemporalSeal.RememberedExactly` | kernel/crypto/kaalka.c:242-247 | Whether two times in a window can be further apart than the ledger remembers is decided by its first and last second. |
| `TemporalSeal.LongestRemembered` | kernel/crypto/kaalka.c:341-439 | Every window of a given length is covered by the ledger exactly when the length is at most 121 seconds; a longer one that begins in the last second of any epoch is not. |
| `TemporalSeal.EndlessForgotten` | kernel/crypto/kaalka.c:359-366 | A seal without an end is never covered. |
| `TemporalSeal.MacIdentifies` | kernel/crypto/kaalka.c:319-388 | With injective MAC and digest, two accepted envelopes with the same MAC are the same message, whatever follows the ciphertext. |
| `TemporalSeal.Receiver.Open` | kernel/crypto/kaalka.c:502-551 | Accepted only if every acceptance of its sender and number within two epochs has lost its record; the checks answer in their order; a replay refusal implies an earlier acceptance; the receiver is ready for the next delivery. |
| `TemporalSeal.AnswerMeans` | kernel/crypto/kaalka.c:502-551 | Each answer by what is wrong with the envelope, in order: version, receiver, length, room, time, seal (subject and MAC over the fields and the digest), replay. |
| `TemporalSeal.Run` | kernel/crypto/kaalka.c:399-551 | Over any deliveries to a new receiver: without eviction, acceptances of one sender and number from epoch one on are more than two epochs apart; from epoch three a replay refusal implies an acceptance within two epochs; eight deliveries never evict, nor do any number from one sender with numbers in a range of 1024. |
| `TemporalSeal.AcceptedOnce` | kernel/crypto/kaalka.c:399-551 | In such a run no two acceptances carry the same MAC unless the window is not covered by the ledger. |
| `TemporalSeal.Twice` | kernel/crypto/kaalka.c:399-551 | From epoch three, a message delivered twice is accepted twice exactly when it passes the checks at both times and they are more than two epochs apart. |
| `TemporalSeal.TwiceAfterLongLife` | kernel/crypto/kaalka.c:341-551 | For every lifetime above 121 seconds a message sealed in the last second of an epoch is accepted then and again 121 seconds later. |
| `TemporalSeal.SealOpenRoundTrip` | kernel/crypto/kaalka.c:455-551 | In its window and the first time, an envelope opens to what was sealed exactly when the length fits the 32-bit length field. |
| `CapState.DeriveShortens` | kernel/cap/cap.c:381-397 | A derived window lies inside its parent's exactly when the lifetime asked for does not bring the 64-bit end to zero, or the parent has no end. |
| `CapState.DerivedEnd` | kernel/cap/cap.c:381-397 | A derivation fails for time exactly when the time of the parent is up and the lifetime is not read as negative; otherwise the window begins now and ends when asked, or with the parent if that is sooner or nothing was asked. |
| `CapState.GrantedMeans` | kernel/cap/cap.c:292-358 | A lookup grants only rights of the first install the capability descends from, to an object of the kind asked for, within its window, and only if the object has been revoked a multiple of 2^32 times since the handle was made. |
| `CapState.RevokedRefused` | kernel/cap/cap.c:313-322 | A handle made before a revocation is refused, whatever is asked of it, until that count comes round. |
| `Capabilities.Caps.FindSlot` | kernel/cap/cap.c:259-267 | The first empty slot, after doubling when there is none, up to 65536. |
| `Capabilities.Caps.Install` | kernel/cap/cap.c:253-290 | One new capability in the first empty slot with its reference; it fails exactly when the space or object is missing or the space cannot grow. |
| `Capabilities.Caps.Lookup` | kernel/cap/cap.c:292-366 | Denied exactly for a kind or right that does not fit; a grant is to an object of the kind asked for and within the first install, and takes one use if uses are counted; only expiry retires the slot and drops the reference; any other answer changes nothing. |
| `Capabilities.Caps.Derive` | kernel/cap/cap.c:368-404 | The child has a subset of the parent's rights and its line of descent, a window inside the parent's exactly when the end does not wrap to zero, and the object's present generation: lookup grants it in its window whatever the parent's generation. |
| `Capabilities.DeriveAfterRevoke` | kernel/cap/cap.c:368-475 | A revoked handle is refused, yet the child it derives is granted exactly when the handle has the derive right, time is left, there is room, the rights asked for were kept, and the lifetime is not read as negative. |
| `Capabilities.OpensAtOnce` | kernel/cap/cap.c:381-397 | A derived window is open at once unless the lifetime is read as negative and the end is not zero. |
| `Capabilities.Caps.Grant` | kernel/cap/cap.c:406-430 | The copy has the masked rights and the same end, from a handle that passed lookup, and that lookup counts as a use; it fails exactly when lookup refuses, time is up or there is no room. |
| `Capabilities.Caps.Close` | kernel/cap/cap.c:432-455 | Exactly that slot is emptied and its reference dropped, the object with the last; otherwise nothing changes. |
| `Capabilities.Caps.ObjectPut` | kernel/cap/cap.c:133-151 | One outside reference is dropped and nothing else; the object goes exactly when no reference is left in any slot or outside. |
| `Capabilities.Caps.RevokeObject` | kernel/cap/cap.c:460-475 | No handle to the object that was granted before the call is granted after it. |
| `Capabilities.Caps.Revoke` | kernel/cap/cap.c:477-490 | It needs the revoke right, and then bumps the generation of exactly that object. |
| `CapState.StatusExactly` | kernel/cap/cap.c:292-358 | Which of the four answers a lookup gives: a bad handle for none, denied for a kind or right that does not fit, a bad handle for one made before a revocation, and then granted or expired by its window. |
| `CapRun.Run` | kernel/cap/cap.c:133-490 | Over any calls on new spaces: a granted lookup means that the object of its handle was made of the kind asked for and revoked a multiple of 2^32 times since the handle was last handed out, and that some install of that object at first hand, no later, had the rights asked for and, unless a derivation brought an end to zero, an open window; by a handle from an install that was not closed, marked or handed out again since, whatever else was called and however often it was looked up, each answer is what kind, rights, window and revocations since make it. |
| `CapRun.RefusedSince` | kernel/cap/cap.c:292-475 | A handle handed out before a revocation of its object is refused by every later lookup in the run, until it is handed out again or the object has been revoked 2^32 times. |
| `CapRun.TracedOn` | kernel/cap/cap.c:133-490 | Each call keeps what ties the live handles to the calls before: the last hand-out of each, the revocations since, and the install its line of descent begins with. |
| `CapRun.StillIntact` | kernel/cap/cap.c:133-490 | A handle from an install that is not closed or marked keeps the capability it was given, whatever else is called, until its window is over. |
| `RingBuffer.StepOk` | include/rk/ringbuf.h:44-64 | Each atomic load, store and buffer access of either side keeps the ring invariant, counters wrapping at 2^32. |
| `RingBuffer.FifoOrder` | include/rk/ringbuf.h:23-64 | Under every interleaving the bytes consumed are a prefix of those accepted and no unread byte is overwritten. |
| `RingBuffer.RefusedExactly` | include/rk/ringbuf.h:44-60 | A put is refused exactly when the ring is full at its load of the tail, a get exactly when it is empty at its load of the head. |
| `RingBuffer.AllPuts` | include/rk/ringbuf.h:44-54 | Under every interleaving each put begun has published its byte, or was counted as dropped, or is still under way. |
| `RingBuffer.WrappedSlot` | include/rk/ringbuf.h:51-61 | A wrapped counter selects the slot of the unbounded count, for power-of-two sizes. |
| `RingBuffer.UsedTwoLoads` | include/rk/ringbuf.h:32-35 | The head loaded, then after any steps the tail: the difference is the number accepted by the first load and unread at the second exactly when the consumer has not passed that head; it is exact for the producer, and a lower bound for the consumer. |
| `RingBuffer.UsedWraps` | include/rk/ringbuf.h:32-35 | For a third party it can be 2^32 - 1, after one byte put and taken between the loads. |
| `RingBuffer.Ring.Put` | include/rk/ringbuf.h:44-54 | Appends the byte or counts a drop, exactly when full; it is the four steps run together. |
| `RingBuffer.Ring.Get` | include/rk/ringbuf.h:56-64 | Hands over the oldest unread byte, or nothing exactly when there is none. |
| `RingBuffer.Ring.Write` | include/rk/ringbuf.h:66-72 | As many bytes as there is room for, in order. |
| `RingBuffer.Ring.Read` | include/rk/ringbuf.h:74-80 | The oldest unread bytes, up to the number asked. |
| `TicketLock.StepOk` | include/rk/spinlock.h:33-57 | Every atomic step of every processor keeps the lock invariant, tickets wrapping at 2^32. |
| `TicketLock.MutualExclusion` | include/rk/spinlock.h:33-57 | Under every interleaving of fewer than 2^32 processors at most one is inside and grants follow ticket order, unless a compare-and-swap succeeds with tickets out, 2^32 tickets after its try began. |
| `TicketLock.OverrunBreaks` | include/rk/spinlock.h:33-57 | After such a swap two processors are inside at once or after one more look. |
| `TicketLock.LateSwapBreaks` | include/rk/spinlock.h:33-57 | An interleaving of two processors, one held up inside its try for 2^32 tickets, ends with both inside. |
| `TicketLock.TrySucceeds` | include/rk/spinlock.h:41-51 | A try whose swap succeeds found nobody inside and no ticket out, despite its two separate loads. |
| `TicketLock.TryAlone` | include/rk/spinlock.h:41-51 | An undisturbed try succeeds exactly when the lock is free. |
| `TicketLock.NextServed` | include/rk/spinlock.h:33-39 | At its next look a waiting processor gets the lock exactly when it holds the oldest ticket. |
| `TicketLock.FewOut` | include/rk/spinlock.h:33-57 | Fewer than 2^32 tickets are out at once, so 32 bits tell them apart. |
| `FixedSine.SinSeries` | kernel/crypto/kaalka.c:62-76 | For every reduced argument the result, early exit included, is within five units of 2^-32 of the Taylor polynomial of degree seventeen; no product, term or partial sum is changed by its cut to 64 bits. |
| `FixedSine.StepError` | kernel/crypto/kaalka.c:68-71 | How rounding and the carried error of one term bound the error of the next. |
| `FixedSine.SumError` | kernel/crypto/kaalka.c:62-76 | The accumulated error of the alternating sum, from the errors of its terms. |
| `FixedSine.Polynomial` | kernel/crypto/kaalka.c:62-76 | What the sum approximates is the Taylor polynomial of the sine by powers and factorials, up to the seventeenth power. |
| `FixedSine.ZeroTerms` | kernel/crypto/kaalka.c:72-73 | Once a term is zero all later ones are, so leaving the loop early changes nothing. |
| `FixedSine.Sine` | kernel/crypto/kaalka.c:78-93 | Quadrant folding preserves the error bound for every angle; from zero to ninety degrees the argument is the angle itself. |
| `FixedSine.SineSymmetries` | kernel/crypto/kaalka.c:51-95 | Exactly, rounding included: full turns change nothing, the sine is odd, supplements agree, the cosine is even. |
| `FixedSine.ShortWay` | kernel/crypto/kaalka.c:121-174 | Between two hands of a clock only sines and cosines are taken, and a straight angle counts zero. |
| `FixedSine.SetTime` | kernel/crypto/kaalka.c:124-129 | Any hours, minutes and seconds, negative ones included, become those on the dial they are congruent to. |
| `FixedSine.HandsStand` | kernel/crypto/kaalka.c:135-160 | The hands stand where the time of day puts them: the hour hand turns once in 43200 seconds, the minute hand in 3600 and the second hand in 60. |
| `FixedSine.TrigIs` | kernel/crypto/kaalka.c:135-185 | What moves the bytes is the sum over the three pairs of hands of the sine of their separation the short way, or of the cosine beyond a right angle. |
| `FixedSine.TrigBound` | kernel/crypto/kaalka.c:121-174 | For any clock the sum of the three trigonometric values is below 4.5 in size. |
| `FixedSine.TangentWraps` | kernel/crypto/kaalka.c:97-107 | For every angle: the tangent is the clamped quotient of sine and cosine, rounded toward zero, exactly when the angle is not from 58 to 171 units of 2^-32 degree off ninety or two hundred and seventy; there the 64-bit quotient wraps, to one in size or to the other sign. |
| `FixedSine.CotangentWraps` | kernel/crypto/kaalka.c:109-119 | The same of the cotangent, off the multiples of a hundred and eighty. |
| `FixedSine.OffsetExact` | kernel/crypto/kaalka.c:186-198 | Within 2^60 bytes the offset is the product rounded to the nearest whole number, and the position: no cut to 64 bits changes it. |
| `FixedSine.ClassicApply` | kernel/crypto/kaalka.c:177-208 | Every byte is shifted by its own offset for that clock, in place or into another buffer, at every length. |
| `FixedSine.ClassicRoundTrip` | kernel/crypto/kaalka.c:177-218 | Decrypting with the same clock time restores every byte string. |
| `LongDivision.UDivMod` | kernel/lib/int128.c:21-54 | For every 128-bit dividend and divisor: quotient and remainder, or all ones and zero for a zero divisor. |
| `LongDivision.NextBit` | kernel/lib/int128.c:44-50 | The shift of the remainder never leaves 128 bits and at most one subtraction is due. |
| `LongDivision.SDiv` | kernel/lib/int128.c:77-84 | The signed quotient is rounded toward zero for every pair except the one whose quotient is not representable, and only for that pair it is not. |
| `LongDivision.SMod` | kernel/lib/int128.c:86-94 | The signed remainder completes the truncated quotient and has the sign of the dividend. |
| `Calendar.GmTime` | kernel/lib/calendar.c:18-60 | For every second, negative ones included: a date that exists, of that second by the closed form of the calendar, with matching day of week and year. |
| `Calendar.MkTime` | kernel/lib/calendar.c:62-73 | The second of a date by the closed form of the calendar, including months past the end of the year. |
| `Calendar.DayNumberClosed` | kernel/lib/calendar.c:18-73 | The day number counted through years and months is that of the Gregorian calendar in closed form: every fourth year a leap year, but not the hundredth, but the four hundredth. |
| `Calendar.SameDate` | kernel/lib/calendar.c:18-73 | Two existing dates of the same second are the same date. |
| `Calendar.SecondsRoundTrip` | kernel/lib/calendar.c:18-73 | Seconds to date and back is the identity. |
| `Calendar.DateRoundTrip` | kernel/lib/calendar.c:18-73 | An existing date to seconds and back is the identity. |
| `Base64.Encode` | kernel/crypto/util.c:140-160 | With room, the encoding of section 4 of RFC 4648; with less, the longest prefix of whole groups that leaves room for a terminator. |
| `Base64.Alphabet` | kernel/crypto/util.c:140-160 | The letters are those of table 1 of RFC 4648, by their codes, and reading one gives its value. |
| `Base64.Decode` | kernel/crypto/util.c:162-187 | Accepts exactly texts of the alphabet up to padding whose bytes fit, and gives the regrouped bits although the accumulator drops high bits. |
| `Base64.Accumulate` | kernel/crypto/util.c:176-182 | The low bits of the 32-bit accumulator are the pending bits, whatever was shifted out. |
| `Base64.RegroupedSextets` | kernel/crypto/util.c:140-187 | Regrouping six-bit values undoes cutting bytes into them. |
| `Base64.RoundTrip` | kernel/crypto/util.c:140-187 | Decoding undoes encoding for every byte string. |
| `StreamHash.Context.Update` | kernel/crypto/sha256.c:70-96 | However a message is cut into updates, what is absorbed is the concatenation. |
| `StreamHash.Context.Final` | kernel/crypto/sha256.c:98-122 | The digest is the block function folded over the padded message of section 5.1.1 of FIPS 180-4. |
| `StreamHash.AbsorbSplit` | kernel/crypto/sha256.c:70-96 | Folding a whole number of blocks and then the rest is folding all of it. |
| `StreamHash.Fewest` | kernel/crypto/sha256.c:103-109 | The padding has the fewest zero bytes possible. |
| `StreamHash.PaddedParts` | kernel/crypto/sha256.c:98-112 | The padded message is the message, a one bit, zeros, and the length in bits with the high byte first. |
| `StreamHash.Hmac.constructor` | kernel/crypto/sha256.c:134-157 | The contexts hold the two pads of the block-sized key, long keys hashed first. |
| `StreamHash.PadBits` | kernel/crypto/sha256.c:134-157 | Bit by bit, each pad is the key, followed by zeros or hashed first, with the bits of its mask turned over. |
| `StreamHash.Hmac.Final` | kernel/crypto/sha256.c:164-171 | The streamed result is the MAC of section 2 of RFC 2104 over everything given. |
| `MemoryFabric.Fabric.Evict` | kernel/graph/memfab.c:87-98 | Entries go from the end of the list only until the new bytes fit or none are left; nothing goes when they fit already. |
| `MemoryFabric.Fabric.Put` | kernel/graph/memfab.c:100-141 | A key held keeps its value, a new one is stored; the byte count is the sum of lengths and stays within a budget of at least 65536. |
| `MemoryFabric.Fabric.Serialize` | kernel/graph/memfab.c:200-234 | The exact size, and the header with every entry in list order. |
| `MemoryFabric.HeaderBytes` | kernel/graph/memfab.c:187-220 | The header byte by byte, the low byte of each number first. |
| `MemoryFabric.EntryBytes` | kernel/graph/memfab.c:222-230 | An entry is its key, the length of its value with the high byte first, and the value. |
| `MemoryFabric.Fabric.Merge` | kernel/graph/memfab.c:236-263 | Accepts exactly well-formed input; with memory and room for the new bytes the result is the union in which what was there stays. |
| `MemoryFabric.ParsedWire` | kernel/graph/memfab.c:223-260 | Reading the wire form gives back the list it was written from. |
| `MemoryFabric.PutAllIs` | kernel/graph/memfab.c:236-263 | The union is left-biased: held keys stay, new ones take their first value, nothing else appears. |
| `MemoryFabric.PutAllTwice` | kernel/graph/memfab.c:236-263 | Merging again changes nothing and needs no room. |
| `MemoryFabric.Travel` | kernel/graph/memfab.c:200-263 | A fabric serialised and merged into an empty one with budget for its bytes is restored entry for entry; a second merge changes nothing. |
| `PathResolution.NextComponent` | kernel/fs/vfs.c:76-84 | The cursor moves over exactly the next component of the path. |
| `PathResolution.Up` | kernel/fs/vfs.c:117-127 | A step by ".." never leaves the subtree, because the depth counted is no more than the true depth. |
| `PathResolution.Resolve` | kernel/fs/vfs.c:93-158 | For every path the node found is within the subtree of the start, mounts included; in a plain tree it is where the normalised names lead, and there is one exactly when every component is there with a name that is not too long. |
| `PathResolution.FollowFails` | kernel/fs/vfs.c:117-158 | In a plain tree a resolution that fails names what is wrong with the first component that is not there: no directory to look in, a name too long, or no such name. |
| `PathResolution.Boundary` | kernel/fs/vfs.c:93-158 | A base directory is a boundary for a path in every filesystem exactly when the path does not begin with a slash, or has a component that is too long. |
| `PathResolution.Cross` | kernel/fs/vfs.c:86-91 | Crossing ends at a node nothing is mounted on. |

## Left out

- Pointers are ids or addresses in maps, so aliasing of C objects and use after free of a node, page record or vnode are not expressible; the heap model works on addresses and memory words.
- Locks, interrupt masking and concurrent callers of the locked components: each call is atomic. The ring and the lock are stated for sequentially consistent memory.
- Page-table bit layout, accessed and dirty bits, TLB flushes, the recursive slot, the shared upper half, creating and freeing whole table trees; addresses are 48-bit and 39-bit offsets and physical addresses fit an entry.
- The riscv64 page tables, IPC, scheduler, buddy allocator, virtual memory manager, ramfs, devfs, graphfs, timers, log ring, ELF loading and the SHE machine: easier variants or code outside these cores.
- Graph export, diff, snapshots, event recording, the id index and weights; no code sets the ephemeral flag.
- Which hash bucket a page or fabric entry is in shows in no result; the models keep the source's choice.
- KV statistics, use times, tensors and the graph node of a cache; `kv_pages_shared` is only a counter.
- Heap statistics other than live bytes, cache names, zeroing (`kzalloc`, `kcalloc`) and string duplication.
- The words of a fresh page block are arbitrary in the heap model, though the allocator zeroes them.
- KernelHeap.Heap.KmallocAligned: an alignment of sixteen or more must be a power of two, which the source asserts.
- SlabHeap.Slabs.CacheAlloc: requires that one object fits in a slab, which the source does not check; it would read through a null free list.
- SlabHeap.Slabs.SlabNew: the same requirement, for the slab that such an allocation makes.
- PageTables.Tables.constructor: an empty tree; the shared upper half and the recursive slot the source installs are not modelled.
- ReplayLedger.Ledger.Check: epochs of successive calls must not decrease, which the source takes for granted of its clock.
- Key derivation, rekeying, and the strength of any cipher; seals and envelopes are stated for arbitrary functions.
- Rights are sets of bit positions rather than 32-bit masks, and reference counts do not overflow.
- Destroying a capability space, and capability listing, naming and dumping.
- TicketLock.MutualExclusion: excludes runs in which a swap succeeds with tickets out, which do break it; does not state fairness or progress under a scheduler; the order of grants is stated, not that they come.
- FixedSine.Sine: angles are integers; an angle within a right angle of the 64-bit limit, where the cosine's argument wraps, is not modelled.
- Calendar.GmTime: years are unbounded, while the source counts them in an int.
- The compression function of SHA-256 is a parameter; HKDF and hex coding are left out.
- MemoryFabric.Fabric.Put: does not state recency of use (a hit moves an entry to the end that is evicted first), hit counts, reading entries or publishing to the graph.
- PathResolution.Resolve: does not model reference counts of vnodes, and changes to the tree during a resolution; a null path.
