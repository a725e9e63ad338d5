# Object ids, arrays and rings of libwayland, verified

The library's real state lives in four places: the object map that gives protocol objects
their ids (`wl_map`), the growing array under it (`wl_array`), the intrusive list
(`wl_list`), and the teardown of a resource that uses the map. This project models these
as they are written, down to words and bytes, and proves what callers rely on.

How the files build on each other:

| file | content |
|---|---|
| `sequences.dfy` | distinct elements and the last element of any sequence |
| `words.dfy` | 32-bit ids, words in bytes, entry tags |
| `growth.dfy` | the doubling loop of `wl_array_add` on machine words, its cost over runs |
| `wl_array.dfy` | `wl_array` on the heap |
| `free_list.dfy` | the free list threaded through freed entries |
| `id_map.dfy` | what a map means: slots, a stack of freed indices; all its laws |
| `map_words.dfy` | how words represent slots; each operation on words is one on slots |
| `iteration.dfy` | what an iteration over a map shows, and at which ids |
| `wl_map.dfy` | `wl_map` on the heap |
| `resources.dfy` | the life of resources over the map and over memory |
| `wl_client.dfy` | resources and `wl_resource_destroy` on the heap |
| `protocol.dfy` | client, server, two ordered channels: the delete_id handshake |
| `endpoints.dfy` | the steps of both ends carried out on real maps |
| `connection.dfy` | both ends and the channels together: calls on two real maps are runs |
| `session.dfy` | the protocol joined with the resources the server keeps |
| `wl_list.dfy`, `ring_set.dfy` | rings, and many disjoint rings at once |
| `shm_formats.dfy` | the format list of a display |

Conventions. A word has 4 or 8 bytes (`PKGBUILD` names machines of both kinds) and all
arithmetic the C code does in a fixed width is written with its modulus. Allocation may
fail at any call: what the allocator will answer is the argument `granted` of the methods
that may ask it, and they fail for lack of memory if and only if they have to ask and it
refuses. Functions on values take the argument `ok`, whether a new entry can be had. A data pointer is a 4-aligned address. A method on
the heap is proved equal to a function on values that knows neither words nor links
(`IdMap.InsertNew` is a stack push or pop on slots), and the laws are proved of those
functions for all inputs and all runs. The value that a map stands for is a ghost field;
`MapWords.RepresentsOne` shows that the words determine it.

Five results give the exact condition for something the C code relies on and does not
check.

- A remove at an own index below 2^31 leaves words that represent a map if and only if the id is in
  use (`MapWords.RemoveRepresentsIff`, `FreeList.PushIff`).
- A store at an own index leaves words that represent a map if and only if the entry was
  not free, or held that word already, or the word is 0 and the entry was the last but one
  on the free list (`MapWords.StoreRepresentsIff`). Only in the first case is that map the
  one the caller meant; in the last one an index has silently dropped off the free list.
- The doubling loop ends, and with room for the request, if and only if the total is at
  most half the address space (`Growth.LoopTerminatesIff`, `Growth.LoopMakesRoomIff`).
- A returned 0 means failure except while slot 0 is not taken
  (`IdMap.ZeroMeansFailureIff`).
- An id is lost to its client if and only if an object was destroyed there with no display
  resource to send delete_id through, or was the display resource itself: its destructor
  clears the pointer before the pointer is read (`Protocol.LostIff`). With the display
  resource bound first, no id is lost exactly as long as it exists (`Protocol.NoneLostIff`).

## Model

| member | source | states |
|---|---|---|
| Words.TagRoundTrip | src/libwayland-map.c:16-18 | a pointer and a flag stored in one entry word are both read back, the word does not overflow and does not look free |
| Words.LinkRoundTrip | src/libwayland-map.c:248-249 | a 32-bit free-list link leads back to its index if and only if the shift lost no bit, and always carries the free bit |
| Words.WordOfBytes | src/libwayland-list.c:113-116 | a word written to memory is read back |
| Words.ElementsAppend | src/libwayland-list.c:113-116 | bytes added at the end of a buffer are one more element, and no other changes |
| Words.ElementsOverwrite | src/libwayland-map.c:157-159 | writing one word changes that element of the buffer and no other |
| Growth.IsBlockMeansPow2 | src/libwayland-list.c:92-98 | the capacities the loop can reach are 16 times a power of two |
| Growth.NewAllocIsLeast | src/libwayland-list.c:92-98 | the loop ends at the least such capacity that holds both the request and the old capacity |
| Growth.LoopTerminatesIff | src/libwayland-list.c:97-98 | on machine words the doubling loop ends if and only if the number it compares with is at most half the address space |
| Growth.LoopResult | src/libwayland-list.c:97-98 | when it ends it has computed that least capacity, without wrap-around |
| Growth.LoopMakesRoomIff | src/libwayland-list.c:97-98 | with the wrapped sum of size and request, the loop ends with enough room if and only if the true sum is at most half the address space |
| Growth.TotalCopyingIsLinear | src/libwayland-list.c:86-136 | over any run of additions and copies all reallocations together copy less than twice the bytes the array ever held at once, and the capacity is at most 16 or under twice that |
| Arrays.WlArray.Init | src/libwayland-list.c:73-77 | an empty array with nothing allocated |
| Arrays.WlArray.Add | src/libwayland-list.c:86-117 | fails if and only if the request does not fit and the allocator refuses, and then changes nothing; old contents stay a prefix, in the same block if the request fits; size, capacity and bytes copied are those of `Growth.AddBytes` |
| Arrays.WlArray.Copy | src/libwayland-list.c:119-136 | fails if and only if the source is larger than the block and the allocator refuses, and then changes nothing; otherwise the destination equals the source, in the same block unless the source is larger than it; also for an array copied onto itself |
| FreeList.ThreadedUnique | src/libwayland-map.c:85-90 | the head and the words determine the free list |
| FreeList.ThreadedAt | src/libwayland-map.c:247-249 | each freed entry holds a tagged link to the next, except that the last holds 0 |
| FreeList.ThreadedDistinct | src/libwayland-map.c:85-90 | a free list that ends visits no entry twice |
| FreeList.PushIff | src/libwayland-map.c:247-249 | with the 32-bit link the code stores, removing an index below 2^31 leaves a free list that ends if and only if the index was not already free |
| FreeList.UntaggedEndsList | src/libwayland-map.c:157-159 | an untagged word stored in a freed entry can only be 0, and then the list ends there |
| IdMap.InsertNewKeeps | src/libwayland-map.c:85-119 | after an insertion every index up to the limit is in use or on the free list, never both, and slots past the limit are NULL |
| IdMap.InsertNewBinds | src/libwayland-map.c:99-119 | success binds an id of the own range that was not bound and no other changes; failure changes no binding |
| IdMap.NoSpaceIff | src/libwayland-map.c:91-114 | ENOSPC if and only if there is memory for one more slot and every index up to the limit is in use; out of memory if and only if there is none for a slot and nothing is free |
| IdMap.ZeroMeansFailureIff | src/libwayland-map.c:93-119 | whether or not memory is available, when a returned 0 is an id rather than a failure, and that it never is once slot 0 is taken |
| IdMap.InsertNewGrowsIff | src/libwayland-map.c:91-114 | the own table gets one more slot if and only if nothing is freed and there is memory, also when the insertion then fails; the other table is untouched |
| IdMap.FreshIdRoutesIff | src/libwayland-map.c:106-119 | the truncated index of a fresh slot leads back to that slot if and only if the slot is within the limit; the two id ranges do not meet |
| IdMap.InsertAtKeepsIff | src/libwayland-map.c:122-162 | on slots, marking one as in use keeps slots and free list consistent if and only if it is not a freed one of the own side |
| IdMap.InsertAtBinds | src/libwayland-map.c:138-161 | success only within the limit and with no gap below; it changes the binding of that id only and never the free list; failure changes nothing |
| IdMap.InsertAtOutcome | src/libwayland-map.c:138-161 | on either table: ENOSPC exactly past the limit, EINVAL exactly with a gap below, out of memory exactly for a next entry without memory, success in all other cases |
| IdMap.ReserveNewBinds | src/libwayland-map.c:164-224 | success only for the peer's ids, only if all lower ones are in use, only where nothing is stored; own table and free list are untouched |
| IdMap.ReserveNewOutcome | src/libwayland-map.c:164-224 | ENOSPC exactly for a peer's id past the limit; EINVAL exactly for an own id, a gap below or something stored there; out of memory exactly for the next unbound id without memory; success in all other cases |
| IdMap.RemoveKeeps | src/libwayland-map.c:226-250 | removing an id that is in use keeps the structure |
| IdMap.RemoveBinds | src/libwayland-map.c:226-250 | an id of the own side is unbound and no other changes; an id of the peer is ignored |
| IdMap.StackLaw | src/libwayland-map.c:85-97 | k removals and then k insertions return the ids in reverse order, grow no table and restore the free list |
| IdMap.RunsRefinePartialMap | src/libwayland-map.c:66-302 | after any run lookups answer, for every 32-bit id, as the record a caller keeps of the replies; new ids are never in the record |
| MapWords.RepresentsOne | src/libwayland-map.c:16-24 | the words of both tables and the head represent at most one state |
| MapWords.ReadsAsBinding | src/libwayland-map.c:252-302 | trusting the free bit alone, a lookup reads the bound pointer and flag, and NULL and 0 everywhere else, the untagged end of the free list included |
| MapWords.LinksFit | src/libwayland-map.c:85-90 | every link on the free list fits in 32 bits, decodes to an index inside the table, and its entry fits too |
| MapWords.InsertsWordMeans | src/libwayland-map.c:85-119 | taking the first freed or a new entry and storing there is the insertion on slots |
| MapWords.NewIdNamesItsEntryIff | src/libwayland-map.c:106-119 | for a table of any size, the id returned for a new entry is of the map's side, and names that entry if and only if it is within the limit; with 2^32 entries before, it names the first one |
| MapWords.StoresWordMeans | src/libwayland-map.c:138-161 | the store on words is the store on slots |
| MapWords.StoreRepresentsIff | src/libwayland-map.c:157-159 | the words left by a store at an own index represent some map if and only if the entry was not free, held the word already, or was the last but one freed and the word is 0; they represent the intended map if and only if the entry was not free |
| MapWords.ReservesWordMeans | src/libwayland-map.c:192-223 | the raw NULL test on the word is the test for an empty slot |
| MapWords.RemoveMeans | src/libwayland-map.c:247-249 | threading an entry onto the list is freeing its slot |
| MapWords.RemoveRepresentsIff | src/libwayland-map.c:247-249 | the words left by a remove at an own index below 2^31 represent some map if and only if the id is in use, so neither freed already nor past the limit |
| Iteration.VisibleIffShown | src/libwayland-map.c:42-45 | an iteration skips just the entries whose slot holds neither pointer nor flag, freed ones included |
| Iteration.ShownInOrder | src/libwayland-map.c:40-49 | entries are shown in index order, and only those of slots that hold something |
| Iteration.ShownOnce | src/libwayland-map.c:40-49 | a slot that holds something is shown exactly once, any other never |
| Iteration.ShownIffLookedUp | src/libwayland-map.c:304-311 | an id is shown if and only if looking it up gives a pointer or a flag |
| Iteration.IterationVisits | src/libwayland-map.c:304-311 | an iteration that is not stopped visits exactly the ids whose lookup gives a pointer or a flag, each once, in ascending order, with the entry each is bound to |
| Iteration.FoldCallsPrefix | src/libwayland-map.c:40-51 | the callback is called on a prefix of the entries that ends with the first answer other than CONTINUE |
| Maps.InsertWord | src/libwayland-map.c:66-120 | for a table of any size that can grow, words, head, id and errno are those of the insertion on words, the index of a new entry counted in 32 bits; out of memory if and only if nothing is freed, the entry does not fit and the allocator refuses |
| Maps.WlMap.Init | src/libwayland-map.c:54-58 | an empty map of the given side |
| Maps.WlMap.InsertNew | src/libwayland-map.c:66-120 | result, errno and new state are those of the insertion on slots, with memory if and only if the entry fits or the allocator grants it; the words represent that state in every case |
| Maps.WlMap.InsertAt | src/libwayland-map.c:122-162 | for every id: errno and words are those of the store on words, with memory if and only if an entry fits or is granted; the other table and the free list head are untouched; unless the id is a freed own one, errno and new state are those of the store on slots |
| Maps.WlMap.ReserveNew | src/libwayland-map.c:164-224 | errno and new state are those of the reservation on slots, with memory if and only if an entry fits or is granted |
| Maps.WlMap.Remove | src/libwayland-map.c:226-250 | for every id with an entry: an own entry takes the old head and becomes the head, a peer's id changes nothing; for an id in use the new state is that of the removal on slots; nothing is allocated |
| Maps.WlMap.LookUp | src/libwayland-map.c:252-276 | the bound pointer, or NULL |
| Maps.WlMap.LookUpFlags | src/libwayland-map.c:278-302 | the bound flag, or 0 |
| Maps.ForEachHelper | src/libwayland-map.c:30-52 | folds the callback over what the table shows, up to the first stop |
| Maps.WlMap.ForEach | src/libwayland-map.c:304-311 | client entries before server entries, none of the latter after a stop |
| Protocol.IdsAgree | src/libwayland-client.h:28-40 | in every reachable state of client, server and channels each id is in exactly one phase (free, new in flight, live, dying with delete_id under way, or lost with none), and every step meets what the maps rely on |
| Protocol.NewIdsAreAccepted | src/libwayland-map.c:164-224 | the reservation of an arriving new id never fails with EINVAL or ENOSPC |
| Protocol.CreateSucceedsIff | src/libwayland-map.c:85-119 | with memory the client gets an object at an id that was not in use, and names it in a message, unless all its ids are in use; then nothing changes |
| Protocol.HeardIdIsNext | src/libwayland-map.c:85-97 | the id that delete_id gives back is the next one the client takes, without any memory |
| Protocol.MessagesReachTheirObject | src/libwayland-client.h:28-40 | a request or event that arrives is about the very object now at its id, or about one that is gone; events always find theirs |
| Protocol.QuietSidesAgree | src/libwayland-client.h:28-40 | with no message under way, client and server agree on an id if and only if it is not lost, and then on the same object; their tables reach equally far |
| Protocol.DestroyLosesIff | src/libwayland-server.c:463-471 | destroying an object loses its id if and only if there is no display resource or it is the display resource itself; else the id is dying |
| Protocol.LostIff | src/libwayland-server.c:463-471 | at any point of any run an id is lost if and only if some earlier step destroyed an object there under that condition |
| Protocol.LostForGood | src/libwayland-server.c:463-471 | a lost id stays lost through every step |
| Protocol.NoneLostIff | src/libwayland-server.c:675-677 | if the display resource is bound once and before anything is destroyed, no id is lost if and only if it has not been destroyed itself |
| Protocol.RefusedIffStillHeld | src/libwayland-map.c:213-221 | the server refuses a known id exactly while it has an object there, so the client must wait |
| Protocol.RunIsGood | src/libwayland-server.c:463-471 | both tables stay in step, new ids in flight extending the server's table in order, and the display resource, if any, has not been destroyed |
| Endpoints.ClientEnd.Create | src/libwayland-map.c:66-120 | an insertion into the client's map and the message it sends are the create step of the system |
| Endpoints.ClientEnd.Hear | src/libwayland-client.h:28-40 | on delete_id, and only then, the client removes the id |
| Endpoints.ServerEnd.Serve | src/libwayland-map.c:164-224 | reserving and then storing is the server's step for a new object; without memory the connection ends |
| Endpoints.ServerEnd.Destroy | src/libwayland-server.c:452-471 | the display resource's destructor clears the pointer, then the slot is cleared in place and delete_id queued just if a display resource is left: this is the destroy step |
| Connections.Connect | src/libwayland-map.c:54-58 | two maps with id 0 taken on both sides are the start of the system; the connection is open if and only if both allocations are granted |
| Connections.Connection.Create | src/libwayland-map.c:66-120 | with both maps on the heap an insertion by the client leads from a reachable state of the system to the next, and lacks memory only if refused it |
| Connections.Connection.Serve | src/libwayland-map.c:122-224 | likewise for a message that reaches the server, which never refuses a new id: it fails only if it is refused memory |
| Connections.Connection.Destroy | src/libwayland-server.c:452-471 | likewise for the destruction of an object |
| Connections.Connection.Hear | src/libwayland-map.c:226-250 | likewise for a message that reaches the client; the id it may have to remove is in use in its map |
| Sessions.RequestFindsItsResource | src/libwayland-server.c:365-369 | over every run of connection and resources, what a request finds at its id is NULL or a resource in memory, not destroyed, with that id, made for the very object the sender meant |
| Sessions.AnnouncedIsHeard | src/libwayland-server.c:463-471 | the ids announced by destroying resources are those the client heard of and then those under way, in order, each once |
| Resources.RunIsSound | src/libwayland-server.c:432-476 | over every run what the map finds is in memory and was not destroyed, what was not destroyed is found at its id with its flag, the log is in order and complete, and the pointer to the display resource does not dangle |
| Resources.GetObjectIsSafe | src/libwayland-server.c:365-369 | over every run an id finds an address if and only if a resource with that id is there and was not destroyed |
| Resources.TornDownOnce | src/libwayland-server.c:432-450 | over every run each destroyed resource got the old signal once, its destructor once if it had one, the final signal and the deallocation once unless it is a legacy one; others got nothing |
| Resources.NothingAfterFree | src/libwayland-server.c:432-450 | over every run the old signal is the first thing that happens to a resource, the final signal comes before the destructor, and nothing happens once it is freed |
| Resources.InMemoryUntilFreed | src/libwayland-server.c:446-447 | at every step a resource stays in memory if and only if it was not freed and its owner did not free the block |
| Resources.IdIsReusable | src/libwayland-server.c:463-475 | right after a destroy a client id can be reserved again and a server id is the next one handed out |
| Resources.ToldIff | src/libwayland-server.c:463-471 | destroying a resource ends with delete_id if and only if the id is the client's and there is a display resource other than the one destroyed |
| Resources.TeardownCounts | src/libwayland-server.c:438-448 | one teardown is about its own resource only and does each thing once, or not at all where it does not apply |
| Clients.WlClient.GetObject | src/libwayland-server.c:365-369 | the pointer stored at the id, or NULL |
| Clients.WlClient.IsDeprecated | src/libwayland-server.c:413-424 | true if and only if the id carries the legacy flag |
| Clients.WlClient.DestroyResource | src/libwayland-server.c:432-450 | signals, destructor and deallocation happen in this order, the final signal and the deallocation only for non-legacy resources; the display resource's destructor clears the pointer to it |
| Clients.ReleaseId | src/libwayland-server.c:463-475 | a client's id is cleared in place, and is to be announced just if there is a display resource; a server's id is freed |
| Clients.WlClient.AddOwn | src/libwayland-map.c:66-120 | inserting a resource at a new server id is the step of that name, so calls on the object are runs of `Resources`; it lacks memory only if refused it |
| Clients.WlClient.AddPeer | src/libwayland-map.c:122-224 | likewise for a resource at an id the client chose, reserved first |
| Clients.WlClient.ResourceDestroy | src/libwayland-server.c:452-476 | teardown, then delete_id if there still is a display resource and the slot cleared in place for a client id, or the id freed for a server id |
| Lists.RotateRing | src/libwayland-base.h:159-163 | a ring may be read from any of its links |
| Lists.RingUnique | src/libwayland-base.h:159-163 | the links determine the sequence read from a given link |
| Lists.Init | src/libwayland-list.c:13-18 | a ring of one |
| Lists.Insert | src/libwayland-list.c:20-27 | the element comes right after the given link; only that link, its successor and the element are written |
| Lists.Remove | src/libwayland-list.c:29-36 | the rest is a ring in the same order; the element's links are NULL |
| Lists.Length | src/libwayland-list.c:38-53 | terminates from any link and counts the others |
| Lists.Empty | src/libwayland-list.c:55-59 | true if and only if there are no others |
| Lists.InsertList | src/libwayland-list.c:61-71 | the elements of the other ring, in order, come right after the given link; the other head's own links are not written |
| Lists.SpliceIsInsertions | src/libwayland-list.c:61-71 | the sequence a splice makes is that of inserting the elements one by one, last first |
| Lists.InsertOneByOne | src/libwayland-list.c:20-27 | calling wl_list_insert for the elements of a list, last first, makes the very ring that splicing the list in makes |
| Lists.InsertThenRemove | src/libwayland-list.c:20-36 | removing what was just inserted restores every link of the ring |
| Lists.Example | src/libwayland-base.h:191-197 | the documented sequence of calls gives e2, e3, e1 |
| RingSets.RingSet.Insert | src/libwayland-list.c:20-27 | with any number of disjoint rings, an insertion at any link changes one ring and leaves all others as they are |
| RingSets.RingSet.Remove | src/libwayland-list.c:29-36 | likewise for a removal |
| RingSets.RingSet.InsertList | src/libwayland-list.c:61-71 | likewise for a splice of one ring into another; a head with no elements stays a ring |
| ShmFormats.WlDisplay.AddShmFormat | src/libwayland-server.c:1174-1184 | across every reallocation the bytes decode to the formats added so far, in call order; a call fails if and only if the number does not fit and the allocator refuses, and then adds none |

## Left out

- Maps.WlMap.InsertNew: requires a freed entry or a table that can grow within half the address space; otherwise the C loop does not return (`Growth.LoopTerminatesIff`). A table that reaches 2^32 entries still represents its slots (`Intact`), but counts are then truncated and the other methods, which need `Valid`, say nothing; `Maps.InsertWord` still says what an insertion does, and `MapWords.NewIdNamesItsEntryIff` when its id is the right one.
- Maps.WlMap.Remove: requires that an own id names an entry of the table; the C code does not look.
- Arrays.WlArray.Add: requires a total of at most half the address space; beyond, the C loop does not end or returns too little room (`Growth.LoopMakesRoomIff`).
- Lists.Length: the ring must be short enough for an int.
- Protocol.IdsAgree: covers ids that the client creates; ids the server creates are reused without a handshake. The steps on real maps need a client table of fewer than 2^32 entries.
- Protocol.LostIff: bind_display is a stub in this library; a step makes an existing object the display resource, while there is none, and gives it the destructor that clears the pointer.
- Resources.TornDownOnce: the user's destructor touches neither the map nor the display resource; creating resources is a stub in this library, so insertion is the map operations themselves.
- wl_map_release, wl_array_release: they end the life of the structure and poison a pointer; nothing is said about use afterwards.
- Callbacks that change the map during wl_map_for_each.
- wl_container_of and unbind_resource: the latter is one call of wl_list_remove on a link inside the resource.
- The transport, event loops, locks, proxies and all functions that are empty in this library; channels are plain sequences.
- Real allocation: the allocator's answer to the one request a call can make is an argument, and a reallocated block keeps its contents.
- Byte order: words are little-endian in memory.
