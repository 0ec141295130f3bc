# attos: a verified model

attos is a small 64-bit kernel. This project models the parts of it whose correctness is
hardest to see, and proves what they promise. `dafny verify dfyconfig.toml` checks all of it.

A failed `REQUIRE` or a `FATAL_ERROR` stops the system for good. The models say so with an
optional result (`None`), or with `false`; nothing is claimed about the state after that.

## What is modelled

**The memory stack** is three layers that rest on each other.

- `HeapSpec`, `HeapProofs`, `Heap`, `DefaultHeap`: the heap. `SimpleHeap` splices a free list
  that lives in the memory it manages; `HeapState` is what the list and the allocations come
  to, and each method is proved to be a step on it. The list is in address order, and with
  the live allocations it tiles the heap. Merging is partial; the weaker fact that survives
  (a lowest block that starts the heap does not touch its successor) is just enough for the
  destructor's check.
- `TreeShape`, `TreeRemoval`, `TreeLinks`, `Tree`: the intrusive search tree. Nodes are
  objects with parent links. A ghost shape says how they hang together, a path with a hole
  says where a loop has come to, and every link of every node is a function of the shape.
- `MemoryTypes`, `PageTables`, `PageWalks`, `Translation`, `PageRuns`, `PhysicalMemory`,
  `Evolution`, `Mapping`, `Unmapping`, `Rights`, `TableOps`, `AddressSpace`, `Teardown`,
  `EntryBits`: four-level page tables with 4K, 2M and 1G pages. Tables are frames of the heap; a
  ghost place (level, prefix, owner) for each table gives it one path from its root. The tables
  of an address space translate by the plain map of its mappings, and the tree holds one node for
  each mapping. Mapping and unmapping are modelled from any address, unmapping to whatever end it
  comes. `Rights` says what memory permits by the flags of every entry that a walk meets, and
  `EntryBits` justifies the structured entries by the packed words.
- `Spaces`, `Agreement`, `Machine`: the kernel's address space and any number of users', over
  whole runs of creating, mapping, unmapping and destroying. `Spaces` has the runs as values and
  what it takes to keep all in order, `Agreement` what it takes for lists and tables to agree,
  whatever the lists are, and `Machine` the operations on the objects, each proved to be a step
  of a run.

**The file transfer** (`TftpPackets`, `TftpClients`, `TftpServer`, `TftpTransfer`,
`TftpReadSafety`, `TftpWriteSafety`, `TftpReadCompletion`, `TftpWriteCompletion`, `TftpAnswers`):
the reader, the writer and the server as objects over packet buffers, each proved to follow a step
function, and the step functions as a system over a network that loses, repeats and reorders, next
to any other clients. `TftpAnswers` says of every packet what is answered to it, byte by byte. Safety is proved for every run, and that every transfer can finish.

**User processes** (`Processes`, `ProcessCalls`, `ProcessTable`): create, start, exit and close as
system calls, over all runs; the kernel's linked list, handle tables and recursive destructor
follow. `ProcessCalls` writes out what each call changes, and when it halts.

**AML** (`AmlBytes`, `NameSpaces`, `LookUps`, `AmlParser`, `AmlEncoding`, `AmlTerms`,
`AmlObjects`, `AmlCalls`, `AmlLocality`): the parser as functions that thread the name space, the
name space as an object, what each form of name is found as, encodings of data, terms and objects
with the proof that reading them gives them back, what a name that has been read means to what
follows, and what reading does not look at. Section numbers are those of the ACPI specification,
version 6.1.

**The stack unwinder** (`Unwind`), **the Internet checksum and datagrams** (`Checksum`,
`Datagrams`) and **the socket table** (`Sockets`) stand by themselves.

## Where the obvious claim is false

Each has the input that shows it, or the exact condition.

- Free blocks can be adjacent: `HeapProofs.AdjacentFreeBlocksOccur`; what is merged is
  `HeapProofs.FreeMergesExactly`.
- A size that is not a positive multiple of 16 hands out memory that stays on the free list:
  `HeapProofs.AllocKeepsExactly`, `HeapProofs.NothingTwice`, `HeapProofs.OddSizeOverlaps`. A
  request to `default_heap` that rounds to nothing makes the free list lead to itself:
  `DefaultHeap.DefaultHeap.Alloc`.
- The overlap test is wrong about very long or very distant ranges: `MemoryTypes.OverlapExactly`.
- Unmapping from another page than the first leaves list and tables in disagreement, whatever
  the loop meets: `Unmapping.UnmapExactly`, `Unmapping.LaterPageLeavesFirst`,
  `Unmapping.LaterPageIntoLargePage`.
- A user's unmapping is not confined to the user's part: for an address of the kernel's it finds
  the user's lowest mapping, and clears pages of the kernel. `Unmapping.UserUnmapsKernelPage` has
  the input, `Unmapping.RunKeepsKernelExactly` the exact condition.
- A range may leave the canonical halves of the address space, and then overwrites what is mapped
  at addresses that are not in it. With 4 KB at 1 MB, 4 KB more at 0x1000000100000 are accepted
  and written over the same page: `Agreement.AliasExactly`. `Mapping.MapExactly` has the exact
  condition for one address space, `Agreement.StepAgrees` for all.
- A user address space that is born before the kernel has mapped anything never shares the
  kernel's tables: `Evolution.SharesExactlyWhenPresent`. Its list and tables agree until the
  kernel's first mapping, and then do not: `Agreement.AgreesExactly`.
- A write of 512*65534 bytes is taken for done before anything is sent:
  `TftpClients.DoneAtOnceExactly`.
- A writer is told that its last block is acknowledged also when the file could not be stored
  because the name was taken meanwhile: `TftpWriteSafety.LastPieceExactly`,
  `TftpWriteCompletion.RivalWins`. Its data is stored when no rival asks for the name:
  `TftpWriteSafety.DoneIsStored`.
- A package cannot hold the null name: `AmlEncoding.NullNameIsZero`.
- An `If` whose package ends the input is not independent of what follows:
  `AmlLocality.ObjectSealedExactly`, `AmlLocality.OpenIfTakesElse`.
- The unwinder takes the end of a function for a part of it: at the first instruction of a
  function that adjoins the one before, or of a leaf function behind another, it undoes the
  other's prologue. `Unwind.FoundExactly`, `Unwind.SeamExactly`, `Unwind.AdjoiningFunctions`.

## Model

| member | source | states |
|---|---|---|
| Heap.SimpleHeap.constructor | attos/mem.cpp:18-22 | the heap begins as one free block, which tiles it |
| Heap.SimpleHeap.Alloc | attos/mem.cpp:29-51 | for any size the spliced list is first fit with the rest of the block kept and memory of live allocations is untouched; it halts exactly when no listed block fits, and the heap is sound afterwards if and only if the size was a positive multiple of 16 |
| Heap.SimpleHeap.Free | attos/mem.cpp:53-57 | an allocation goes back; the range check cannot fail for a live one, and other allocations' memory is untouched |
| Heap.SimpleHeap.InsertFree | attos/mem.cpp:59-88 | splicing through the links inserts in address order and merges from the block before |
| Heap.SimpleHeap.CoalesceFrom | attos/mem.cpp:90-96 | the loop joins a block with its successors for as long as they touch |
| Heap.SimpleHeap.Destroy | attos/mem.cpp:24-27 | the destructor's check passes exactly when the list is the whole heap |
| HeapProofs.AllocKeeps | attos/mem.cpp:29-51 | allocating a whole number of nodes keeps the tiling of free and live blocks and the head invariant |
| HeapProofs.AllocKeepsExactly | attos/mem.cpp:37-48 | no listed block holds the address handed out or reaches into the range, if and only if the size is a positive multiple of 16; exactly then the tiling is kept |
| HeapProofs.NothingTwice | attos/mem.cpp:37-48 | after an allocation of nothing the next one that the first block can serve gets the same address |
| HeapProofs.OddSizeOverlaps | attos/mem.cpp:37-48 | 24 bytes of a fresh heap of 64, and then 16, overlap |
| HeapProofs.AllocIsFirstFit | attos/mem.cpp:31-35 | the block handed out is the lowest listed block that is large enough, and none is only when none is |
| HeapProofs.FreeKeeps | attos/mem.cpp:53-96 | freeing any live block keeps the tiling and the head invariant |
| HeapProofs.FreeMergesExactly | attos/mem.cpp:83-95 | freeing merges the block before the insertion point with what touches it, and stops there if it is not adjacent |
| HeapProofs.AdjacentFreeBlocksOccur | attos/mem.cpp:86-87 | a history after which two free blocks are adjacent |
| HeapProofs.ReachedOk | attos/mem.cpp:18-96 | every state reached by allocating and freeing tiles the heap |
| HeapProofs.WholeExactlyWhenAllFreed | attos/mem.cpp:24-27 | in a reachable state the destructor's check succeeds if and only if nothing is allocated |
| HeapProofs.AllFreedIsWhole | attos/mem.cpp:24-96 | after any history, freeing everything in any order leaves the one block the heap began with |
| DefaultHeap.RoundedHoldsExactly | attos/mem.cpp:98-101 | header and payload fit if and only if neither the addition nor the rounding wraps in 64 bits; which requests round to nothing |
| DefaultHeap.DefaultHeap.Alloc | attos/mem.cpp:98-105 | for any request the payload is behind the header of a block allocated by first fit, 16-aligned when the heap is; the heap is sound afterwards if and only if the request did not round to nothing, and otherwise the free list leads to itself |
| DefaultHeap.DefaultHeap.Free | attos/mem.cpp:107-113 | the header gives back exactly the block that was allocated, and the cookie check passes |
| DefaultHeap.DefaultHeap.ClientWrite | attos/mem.cpp:98-113 | a store into a payload disturbs neither the free list nor any header |
| DefaultHeap.PayloadsDisjoint | attos/mem.cpp:98-113 | payloads are large enough and overlap no other allocation, headers included |
| Tree.Tree.Remove | attos/tree.h:128-215 | the order is the old one without exactly that node, all links agree with the new shape, the node's three links are null, at most two passes; a detached node changes nothing |
| Tree.Tree.SwapWithSuccessor | attos/tree.h:132-184 | both pointer cases of the swap exchange the node with its in-order successor and nothing else |
| Tree.Tree.Unhook | attos/tree.h:187-214 | a node with at most one child gives way to it |
| TreeLinks.UpdateParentOf | attos/tree.h:49-58 | exactly the child link that led to the node is redirected |
| TreeLinks.ReparentChildNodes | attos/tree.h:60-64 | exactly the children's parent links are set |
| TreeRemoval.SwapThenUnhookOrder | attos/tree.h:128-215 | swapping and then unhooking takes exactly the node out of the order |
| Tree.Tree.Insert | attos/tree.h:252-267 | the node is put behind every element that is not greater; the order stays sorted and all else keeps its place |
| Tree.Tree.LowerBound | attos/tree.h:219-231 | the first element of the order that is not less, duplicates included |
| Tree.Tree.UpperBound | attos/tree.h:235-247 | the first element of the order that is greater |
| Tree.Tree.MinimumNode | attos/tree.h:17-22 | the first node of the order below a node |
| Tree.Tree.SuccessorNode | attos/tree.h:24-44 | the next node of the order, or null after the last |
| Tree.Tree.FindIf | attos/tree.h:99-126 | iteration from begin meets the order from its start, each node once, up to the first that satisfies the predicate |
| Tree.OrderDistinct | attos/tree.h:99-126 | no node is met twice |
| MemoryTypes.OverlapExactly | attos/mem.h:124-126 | for ranges that do not wrap, the signed-difference test is intersection if and only if the reach of the ranges is within half the address space |
| EntryBits.UnpackAddress | kernel/mm.cpp:410-439 | address and page-size bit are recovered from a packed entry whatever the processor has set |
| EntryBits.CompatibleExactly | kernel/mm.cpp:148-159 | the masked comparison accepts an entry if and only if it is a table entry with the flags asked for |
| EntryBits.JoinIsSum | kernel/mm.cpp:423-438 | joining base and offset by OR is their sum for every page size |
| EntryBits.FlagsAtBits | attos/mem.h:138-149 | each flag of an entry is exactly its bit of the word: 1 writing, 2 users, 3 and 4 caching, 7 a large page, 63 against execution |
| Rights.WalkRights | kernel/mm.cpp:410-439 | the rights a walk comes to are those that every entry it meets grants, and the caching is the final entry's |
| Rights.TranslatedAllows | kernel/mm.cpp:217-238 | what is translated by a mapping may be written, used by users and executed, by all entries met together, if and only if its type says so; caching is off if and only if it says so; and as many tables lead there as its page size asks for |
| Rights.MappedGrants | kernel/mm.cpp:217-241 | the pages that the loop has written give every address of the range exactly the rights of its type along the whole walk, wherever the range starts and however long it is |
| Rights.TableServes | kernel/mm.cpp:148-159 | a table allocated for memory of one type is let pass for another if and only if both are for users or neither is |
| PageTables.IndexOfLow | attos/mem.h:94-103 | a table index ignores bits 48 to 63 |
| PageWalks.WalkAfterSet | kernel/mm.cpp:230-238 | writing a final entry changes the walk of exactly the addresses of its page |
| PageWalks.WalkAfterLink | kernel/mm.cpp:161-166 | linking a zeroed table changes no walk |
| TableOps.AllocIfNotPresent | kernel/mm.cpp:148-166 | the table below is returned, allocated if need be; halts on incompatible flags; no walk changes and all tables keep one place |
| TableOps.MapPage | kernel/mm.cpp:227-242 | one turn, at any address, extends the mapping by exactly one page, of any of the three sizes |
| TableOps.MapPages | kernel/mm.cpp:227-242 | the loop, from any address and over any length, maps every page, the last for each place counting, and changes no other address; it stops only for want of memory or at a table of other permissions |
| TableOps.UnmapPage | kernel/mm.cpp:257-271 | one turn, from any address: down to the table of the page through present entries, whose entry is cleared, or no change where an entry is absent or a large page |
| TableOps.UnmapPages | kernel/mm.cpp:257-271 | the loop, from any address and until it is done, halts, or takes a large page for a table, is the run of the specification |
| Translation.TranslatesMore | kernel/mm.cpp:182-245 | with all pages in place the tables translate by the old mappings and the new one, a large page over an emptied table included |
| Translation.TranslatesLess | kernel/mm.cpp:247-275 | with all pages cleared they translate by the remaining mappings |
| Mapping.AddPage | kernel/mm.cpp:227-242 | writing the final entry of the next page, wherever it lies, changes the walk of exactly the addresses of that page, for all address spaces that see it |
| Mapping.ExtendedFrom | kernel/mm.cpp:227-242 | for a range in the own part the loop's pages are the mapping, address by address |
| Mapping.MapExactly | kernel/mm.cpp:182-245 | a range anywhere and of any length leaves the own list and tables in agreement if and only if it is in the own part, or every page it writes is what the list says of its addresses anyway |
| Unmapping.RunWalk | kernel/mm.cpp:257-271 | from any address, and however the loop ends, exactly the pages done are not translated any more, and every table keeps its place |
| Unmapping.UnmapExactly | kernel/mm.cpp:247-275 | whatever address is given and however the loop ends, the tables agree with the list without the mapping if and only if the address is in its first page; then the loop completes |
| Unmapping.FromStartExactly | attos/mem.h:94-103 | for a canonical address that is the plain comparison with the first page |
| Unmapping.KernelAddressFinds | kernel/mm.cpp:85-89 | for a range of kernel addresses the overlap test reports every mapping of a user, so the lowest is found |
| Unmapping.RunKeepsKernelExactly | kernel/mm.cpp:472-492 | a user's unmapping, from any address and up to where it halts or takes a large page for a table, leaves the kernel's list and tables in agreement if and only if the user does not share the kernel's slot or none of the pages done is in a kernel mapping |
| Unmapping.CompleteKeepsKernel | kernel/mm.cpp:472-492 | for a run that completes, the pages asked for decide |
| Unmapping.BelowTopSlot | kernel/mm.cpp:472-492 | a run that ends below the top slot meets no kernel mapping |
| Unmapping.RunKeepsUsers | kernel/mm.cpp:247-275 | unmapping in one address space, from any address and up to where it halts or takes a large page for a table, leaves the translation of every other user alone |
| Unmapping.RunOnAll | kernel/mm.cpp:247-275 | up to there it takes from every address space exactly the pages done that it sees |
| Unmapping.UserUnmapsKernelPage | kernel/mm.cpp:247-275 | with 4 KB of a user's at 1 MB and 4 KB of the kernel's at 0xFFFFFFFFC0000000, the user's unmapping of the kernel's page completes, and neither's list and tables agree |
| Unmapping.LaterPageLeavesFirst | kernel/mm.cpp:247-271 | unmapping two pages from the second one on leaves the first translated |
| Unmapping.LaterPageIntoLargePage | kernel/mm.cpp:262-269 | below a 2M page it goes on into the large page, which it takes for a table |
| AddressSpace.AddressSpace.FindMapping | kernel/mm.cpp:85-89 | for any range, the lowest mapping that the overlap test reports, and null exactly when it reports none |
| AddressSpace.AddressSpace.FoundIntersects | kernel/mm.cpp:85-89 | for a range in the own part that is the lowest mapping that really intersects, and null when none does |
| AddressSpace.AddressSpace.MapMemory | kernel/mm.cpp:484-491 | the mapping is in the list and its pages in the tables; list and tables agree if and only if the range does not leave the canonical halves or writes only what the list says anyway; what is mapped lies in the own part in the first case only, in which the checks on the top-level slot have kept kernel and user mappings apart; it halts only for a request that is not acceptable, for want of memory, or at a table of other permissions; the rights and the caching along the whole walk of every address of the range are exactly those of the type, whatever the range, and in the own part each address leads to its place in physical memory |
| AddressSpace.AddressSpace.DoMapMemory | kernel/mm.cpp:182-245 | the mapping is new and its pages are in the tables of all who see them; list and tables agree if and only if the range is in the own part or writes only what the list says anyway; a request that is not acceptable is never carried out |
| AddressSpace.AddressSpace.Admit | kernel/mm.cpp:183-215 | a request is let through if and only if its sizes and alignments are right, the overlap test reports nothing, reading is allowed, and a record is left |
| AddressSpace.AddressSpace.VirtualAlloc | kernel/mm.cpp:172-179 | an allocated range is the next free one and does not wrap |
| AddressSpace.AddressSpace.UnmapMemory | kernel/mm.cpp:247-275 | for any address and length: it halts at once exactly when what is found has not that length; else that mapping leaves the list, the tables are those of the run, and the address space is sound afterwards if and only if the address was in its first page |
| AddressSpace.AddressSpace.RemoveAgain | kernel/mm.cpp:272-274 | the second removal acts on a detached node and changes neither the tree nor any link |
| AddressSpace.CreateUser | kernel/mm.cpp:472-477 | a user's address space is new, with a tree of its own, the kernel's top entry as it is then and nothing else, and list and tables agree |
| AddressSpace.CreateKernel | kernel/mm.cpp:285-292 | the first address space is the kernel's, new and empty |
| Evolution.OthersUndisturbed | kernel/mm.cpp:182-245 | what one address space does to its own tables changes the translation of no other, and whoever shares the kernel's slot goes on doing so |
| Spaces.EveryAddress | kernel/mm.cpp:410-439 | every canonical address is translated by the one mapping, user's or kernel's, that holds it, and by none if none does |
| Spaces.StepExactly | kernel/mm.cpp:182-275 | creating, mapping, unmapping and destroying keep all in order (every list in its part and in agreement with its tables, every user with the kernel's top entry) if and only if the kernel maps nothing for the first time with users about, nothing is mapped outside the own part, and nothing is unmapped from another page than its first |
| Spaces.RunExactly | kernel/mm.cpp:182-275 | so over whole runs with any number of users: all is in order up to a point if and only if every step up to it was sound |
| Spaces.EveryAddressInRuns | kernel/mm.cpp:410-439 | after any sound run every address space translates every canonical address by its own mappings and the kernel's together |
| Spaces.RightsInRuns | kernel/mm.cpp:182-245 | and every address of a mapping of its own or the kernel's permits exactly what the mapping's type does, by all entries of the walk together |
| Agreement.StepAgrees | kernel/mm.cpp:182-275 | whatever the lists are and wherever mappings lie: after a step all address spaces translate every canonical address by their own and the kernel's mappings if and only if the lists, as they are after it, say exactly what was written and cleared, of every address for everyone who sees it, and what they said of all others |
| Agreement.RunAgrees | kernel/mm.cpp:182-275 | so over whole runs with any number of users and any lists |
| Agreement.RightsAgree | kernel/mm.cpp:217-238 | in a world that agrees, mappings anywhere permit exactly what their types do |
| Agreement.AgreesExactly | kernel/mm.cpp:182-275 | from a world in order that condition comes to this: no first mapping of the kernel's with users about, no unmapping from another page than the first, and what is mapped is in the own part or writes only what the lists say |
| Agreement.AliasExactly | kernel/mm.cpp:182-245 | with 4 KB of a user's at 1 MB, 4 KB at 1 MB above 2^48 pass the checks and are written over the same page; list and tables agree if and only if it was the same physical page |
| Agreement.KernelSlotAgrees | kernel/mm.cpp:472-492 | a user that shares the kernel's slot does so after any operation of any address space, a mapping that strays into the slot included, and agrees with the kernel on every kernel address |
| Machine.Boot | kernel/mm.cpp:285-292 | a run begins with the kernel's address space alone |
| Machine.MapIn | kernel/mm.cpp:182-245 | mapping in one of many address spaces is a step of a run; all stay in order if and only if it is sound, and all agree if and only if it is harmless by the lists |
| Machine.UnmapIn | kernel/mm.cpp:247-275 | so is unmapping, from any address; all stay in order, and agree, if and only if the address was in the first page |
| Machine.NewUser | kernel/mm.cpp:472-477 | so is creating a user, after which all are in order whether the kernel has mapped anything or not |
| Machine.Close | kernel/mm.cpp:479-482 | so is destroying a user, after which all others are in order |
| Evolution.SharesExactlyWhenPresent | kernel/mm.cpp:474-477 | the copied slot keeps sharing if and only if it was present when it was copied |
| PhysicalMemory.Memory.AllocTable | kernel/mm.cpp:140-142 | a table is a fresh zeroed frame of the heap, apart from all others |
| PhysicalMemory.Memory.FreeTable | kernel/mm.cpp:144-146 | a frame is given back once, from the live allocations |
| Teardown.SubtreesDisjoint | kernel/mm.cpp:102-122 | each table that can be reached has exactly one path to it |
| Teardown.FreeTables | kernel/mm.cpp:102-122 | exactly the tables that can be reached are freed, in the order of the nested loops; leaves are never taken for tables |
| Teardown.ChildrenFirst | kernel/mm.cpp:102-122 | in that order every table comes after all tables that its entries lead to |
| Teardown.Destroy | kernel/mm.cpp:479-482 | exactly the reachable tables of the address space are freed, each once, and never the kernel's |
| TftpPackets.StringExactly | attos/net/tftp.cpp:33-42 | a string is what precedes the first NUL, and what follows is left |
| TftpPackets.FindString | attos/net/tftp.cpp:33-42 | the loop finds the first NUL, or halts when there is none |
| TftpPackets.DataBack | attos/net/tftp.h:51-59 | a data packet reads back as its block number and its bytes |
| TftpPackets.RequestBack | attos/net/tftp.cpp:9-13 | a request reads back as its operation, file name and mode |
| TftpPackets.BlocksAreFile | attos/net/tftp.h:23-29 | for a legal size the counted blocks, all but the last full, join to the file |
| TftpClients.TftpReader.Receive | attos/net/tftp.cpp:780-793 | the reader follows its step function on any bytes, halting included |
| TftpClients.TftpReader.Tick | attos/net/tftp.cpp:669-678 | so it does on a tick |
| TftpClients.TftpWriter.Receive | attos/net/tftp.cpp:855-866 | the writer follows its step function on any bytes |
| TftpClients.TftpWriter.Tick | attos/net/tftp.cpp:844-853 | so it does on a tick |
| TftpClients.TftpWriter.SendNext | attos/net/tftp.cpp:828-838 | the packet sent is the next block of the data, inside the buffer |
| TftpClients.DoneAtOnceExactly | attos/net/tftp.cpp:813-842 | a new writer is done at once if and only if the size is 512*65534 |
| TftpClients.WritingRetries | attos/net/tftp.cpp:844-853 | after 50 silent ticks the writer has sent its last packet once more, exactly once |
| TftpClients.ReadingRetries | attos/net/tftp.cpp:771-778 | a reader asks again until its first block, and halts on a later silence |
| TftpAnswers.ReaderAnswers | attos/net/tftp.cpp:780-793 | a reader takes exactly its next block, of at most 512 bytes, keeps it and acknowledges it, done if it is short; other blocks halt it |
| TftpAnswers.ReaderTakesData | attos/net/tftp.cpp:700-723 | nothing but data packets is taken; error packets halt the reader |
| TftpAnswers.WriterAnswers | attos/net/tftp.cpp:855-866 | a writer takes the acknowledgement of any block up to its last and sends the 512 bytes, or what is left of them, behind that block |
| TftpAnswers.WriterTakesAcks | attos/net/tftp.cpp:700-723 | nothing but acknowledgements is taken |
| TftpServer.TftpServer.Receive | exp/tftp/tftps.cpp:161-275 | the receive loop follows its step function on any datagram from anyone |
| TftpServer.TftpServer.PutBlock | exp/tftp/tftps.cpp:34-46 | the reply is the block asked for, inside the buffer; halts out of range |
| TftpServer.TurnKeeps | exp/tftp/tftps.cpp:175-261 | one session to each peer, others' sessions kept, files never changed and only stored by the sender's own write session |
| TftpServer.AckExactly | exp/tftp/tftps.cpp:227-240 | the last acknowledgement ends the session, any other is answered with the next block |
| TftpAnswers.RequestAnswered | exp/tftp/tftps.cpp:184-226 | acknowledgement 0 and an empty session if and only if a plain and free name is to be written in octet mode; block 1 and its session if and only if a file that is there, of legal size, is to be read; otherwise no session and error 4, 1 or 2, byte by byte |
| TftpAnswers.MalformedHalts | exp/tftp/tftps.cpp:189-191 | a request without a NUL behind its name or its mode halts the server |
| TftpAnswers.OthersStop | exp/tftp/tftps.cpp:161-187 | packets that are too short or broadcast halt it, packets of another kind are answered by error 4 and end the loop, packets that are too long end it |
| TftpAnswers.DataAnswered | exp/tftp/tftps.cpp:242-261 | data is taken if and only if it is the next block of the sender's write session; acknowledged, kept or stored, refused behind the acknowledgement when the name is taken, byte by byte |
| TftpAnswers.AckHaltsExactly | exp/tftp/tftps.cpp:227-240 | an acknowledgement halts the server if and only if the sender has no session with such a block, or a session that no next block can be sent of |
| TftpReadSafety.ReadSafe | attos/net/tftp.cpp:750-793 | in every run the reader holds exactly the first blocks of the file, as many as it has counted, and is done if and only if those are all |
| TftpReadSafety.StepKeeps | attos/net/tftp.cpp:780-793 | what holds of reader, server and every packet in the network after each event |
| TftpReadCompletion.ReadCompletes | attos/net/tftp.cpp:728-793 | every file of legal size can be read to the end |
| TftpWriteSafety.WriteSafe | attos/net/tftp.cpp:819-867 | in every run of a smaller write, sessions hold block prefixes, a done writer's file was stored in the run, and holds its data if its session stored it |
| TftpWriteSafety.StepKeeps | exp/tftp/tftps.cpp:217-261 | what holds of writer, sessions, stored files and every packet after each event, retries and restarts included |
| TftpWriteSafety.DoneIsStored | exp/tftp/tftps.cpp:242-261 | with no rival for the name, done implies the server stored exactly the data |
| TftpWriteSafety.LastPieceExactly | exp/tftp/tftps.cpp:248-259 | the last block is acknowledged either way, and stored if and only if the name is free or already holds it |
| TftpWriteSafety.NextPrefix | exp/tftp/tftps.cpp:48-61 | taking the expected block extends the prefix by exactly that block |
| TftpWriteCompletion.WriteCompletes | attos/net/tftp.cpp:796-867 | every smaller write can finish, with its data stored |
| TftpWriteCompletion.RivalWins | exp/tftp/tftps.cpp:248-259 | a rival can store any short content under the name while the writer ends up done |
| Processes.StepKeeps | kernel/kernel.cpp:519-629 | every call keeps the chain of starters among the running processes, the newest of them current and its address space active |
| Processes.StepFrames | kernel/kernel.cpp:525-608 | starting suspends the starter with its registers and rax zero, exit goes on with the newest suspended one or the original context, nothing else touches them |
| Processes.ExitResumesStarter | kernel/kernel.cpp:525-608 | whatever happens between, a process's exit resumes exactly the one that started it, with the registers of its start and rax zero |
| Processes.OriginalExactly | kernel/kernel.cpp:532-543 | in every run from the first process, the original context is restored if and only if none is running |
| Processes.DestroyKeeps | kernel/kernel.cpp:271-290 | closing a valid handle never meets the destructor's checks |
| Processes.DoomedClosed | kernel/kernel.cpp:274-279 | everything held by a process that goes, goes too |
| Processes.CloseUndoesCreate | kernel/kernel.cpp:555-576 | closing the handle of a new process restores tables, list and current process |
| ProcessCalls.StartsExactly | kernel/kernel.cpp:596-608 | a start succeeds if and only if there is an image and the handle names a process that has not been started |
| ProcessCalls.StartRuns | kernel/kernel.cpp:596-608 | after it the process that the handle names runs, which had only been created, with exactly the registers of its image; the starter waits with its own, and nothing else changes |
| ProcessCalls.ExitCodeUntilClosed | kernel/kernel.cpp:525-613 | in every run after an exit, until a handle of the process is closed, asking for its exit code gives what it had in rdx, and changes nothing else |
| ProcessCalls.CodeExactly | kernel/kernel.cpp:609-613 | there is a code if and only if the handle names a process that has exited |
| ProcessCalls.CreatesExactly | kernel/kernel.cpp:555-572 | creating succeeds if and only if a slot is free; the handle is for the lowest one, and the process is new, listed first and holds nothing |
| ProcessCalls.DeviceExactly | kernel/kernel.cpp:555-572 | so for a device object |
| ProcessCalls.ClosesExactly | kernel/kernel.cpp:574-576 | closing empties exactly that slot, gives rax zero, and leaves the current process as it is |
| ProcessCalls.GoneExactly | kernel/kernel.cpp:271-290 | with a process go exactly those it holds, those that they hold, and so on |
| ProcessTable.UserProcesses.Handle | kernel/kernel.cpp:519-629 | the kernel's tables and list follow the system-call function and keep the invariant |
| ProcessTable.UserProcesses.DestroyProcess | kernel/kernel.cpp:271-290 | the recursive destructor takes exactly the process and all it holds out of list and tables |
| ProcessTable.UserProcesses.Unlink | kernel/kernel.cpp:280-289 | the process is taken out of the linked list, and no other |
| ProcessTable.UserProcesses.FirstRunning | kernel/kernel.cpp:532-538 | the first running process of the list, newest first |
| ProcessTable.UserProcesses.ObjectOpen | kernel/kernel.cpp:363-372 | an object goes to the lowest free slot, and its handle is one more |
| AmlBytes.AdjustExactly | exp/aml/aml.cpp:817-850 | a package length is accepted if and only if it is complete, has fewer than three extra bytes, counts itself and fits |
| AmlBytes.PackageBack | exp/aml/aml.cpp:843-850 | for contents below a megabyte a package is read back as put together (section 20.2.4) |
| AmlBytes.NameBack | exp/aml/aml.cpp:873-918 | a name string of every form is read back (section 20.2.2) |
| AmlBytes.NameOnly | exp/aml/aml.cpp:873-918 | nothing else is read as a name |
| AmlBytes.ReadName | exp/aml/aml.cpp:873-918 | the byte-by-byte loop reads the same names |
| NameSpaces.NameSpace.OpenScope | exp/aml/aml.cpp:613-627 | entering a name extends the scope, from the root if it is rooted; halts on `^` and on broken segments |
| NameSpaces.NameSpace.Provide | exp/aml/aml.cpp:572-583 | leaving restores the scope before and binds the name, which must be new |
| NameSpaces.NameSpace.LookupNode | exp/aml/aml.cpp:713-748 | the loops look up as the search function says, root search for `^` and long names included |
| NameSpaces.SearchFinds | exp/aml/aml.cpp:734-745 | a short name is found in the innermost scope that binds it |
| NameSpaces.ProvidedKeeps | exp/aml/aml.cpp:572-627 | opening, reading inside and providing restores the scope, and bindings only grow, each name once |
| LookUps.RootedExactly | exp/aml/aml.cpp:718-721 | from every scope a rooted name is the first binding of the path behind the root character, or missing when there is none |
| LookUps.CaretsExactly | exp/aml/aml.cpp:722-729 | with carets in front it halts if and only if there are more of them than open scopes, and otherwise is the first binding of the rest as a path from the root |
| LookUps.LongExactly | exp/aml/aml.cpp:730-733 | a name of more than four characters is the first binding of that path from the root |
| LookUps.ShortExactly | exp/aml/aml.cpp:734-745 | a short name is found in the nearest scope that binds it, and missing if and only if none does |
| LookUps.BoundIsFound | exp/aml/aml.cpp:572-627 | opening a scope for a name, reading anything inside and binding it: its rooted path is found from anywhere, as what was bound, however much is bound later |
| LookUps.BoundIsFoundInside | exp/aml/aml.cpp:572-627 | and by its four characters from the scope it was opened in |
| LookUps.OpensExactly | exp/aml/aml.cpp:613-627 | a scope is opened if and only if its path is of whole segments, from the root for a rooted name; a caret halts |
| LookUps.ProvidesExactly | exp/aml/aml.cpp:789-799 | a path is bound behind all others, if and only if nothing has been bound to it |
| AmlParser.ParseData | exp/aml/aml.cpp:1003-1087 | terminates on every input, and a result leaves a proper suffix of it |
| AmlParser.ParseElements | exp/aml/aml.cpp:1065-1075 | the elements of a package are read to its end |
| AmlParser.ParseTermArg | exp/aml/aml.cpp:1438-1450 | terminates, and a result leaves a proper suffix |
| AmlParser.ParseArgs | exp/aml/aml.cpp:1110-1131 | reads exactly as many arguments as asked for |
| AmlParser.ParseObject | exp/aml/aml.cpp:1723-1983 | terminates; a result leaves a proper suffix, restores the scope and adds only new bindings |
| AmlParser.ParseScope | exp/aml/aml.cpp:1742-1761 | terminates; a result leaves a proper suffix, restores the scope and adds only new bindings, whether the scope was bound before or not |
| AmlParser.ParseList | exp/aml/aml.cpp:957-972 | a list is read to the end of its package, with the scope restored |
| AmlParser.ReadList | exp/aml/aml.cpp:957-972 | the loop reads the same lists |
| AmlEncoding.DataBack | exp/aml/aml.cpp:1003-1087 | reading is a left inverse of encoding for nested data objects, the trailing bytes untouched (section 20.2.3) |
| AmlEncoding.NullNameIsZero | exp/aml/aml.cpp:1066-1073 | a package element is read as the name it encodes if and only if it is not the null name |
| AmlTerms.TermBack | exp/aml/aml.cpp:1300-1450 | reading is a left inverse of encoding for nested terms: arguments and locals, names, calls with as many arguments as the method takes, and each operator with its arity and target written out (section 20.2.5.4), but for the four that are left out |
| AmlTerms.TargetBack | exp/aml/aml.cpp:1089-1097 | so for targets: none, arguments and locals, names, elements |
| AmlCalls.ObjectBinds | exp/aml/aml.cpp:1731-1771 | once a value, device or method has been read its rooted name is found from any scope as what it is, a method with the low three bits of its flags for arguments |
| AmlCalls.CallTakesFlags | exp/aml/aml.cpp:1300-1320 | behind that name exactly as many terms are read as the low three bits of the method's flags say |
| AmlCalls.UnboundGivesUp | exp/aml/aml.cpp:1114-1131 | an operator with an unbound name for an argument gives up right behind the name; DerefOf and Sleep go on without it |
| AmlCalls.RootedScope | exp/aml/aml.cpp:1742-1761 | a scope opened from the root is merged into the scope or device its path is bound to, bound when nothing is, and halts otherwise |
| AmlCalls.StatementBack | exp/aml/aml.cpp:1723-1730 | a name, call or operator is read back as an object by itself |
| AmlCalls.ReturnBack | exp/aml/aml.cpp:1862-1870 | any term is read back as what is returned |
| AmlCalls.StoreBack | exp/aml/aml.cpp:1772-1781 | and as what is stored to an argument, local, name or element |
| AmlCalls.GuardedBack | exp/aml/aml.cpp:1815-1861 | and as what a loop or a branch depends on |
| AmlCalls.BufferBack | exp/aml/aml.cpp:1047-1056 | and as the size of a buffer |
| AmlCalls.OpenBufferBack | exp/aml/aml.cpp:1047-1056 | an unbound name leaves the size of a buffer open |
| AmlCalls.PackageCounts | exp/aml/aml.cpp:1057-1081 | a package is read if and only if it has as many elements as it says, or none |
| AmlObjects.ObjectBack | exp/aml/aml.cpp:1723-1983 | reading an encoded name, scope, device, method, if, while, return or store gives its node and its effect on the name space, and stops exactly when that has none |
| AmlObjects.ObjectsBack | exp/aml/aml.cpp:957-972 | so does reading a list of them |
| AmlLocality.TermSealed | exp/aml/aml.cpp:1438-1450 | no byte behind a term has a part in it |
| AmlLocality.ObjectSealedExactly | exp/aml/aml.cpp:1723-1983 | no byte behind an object has a part in it, packages included, if and only if the object is not an `If` whose package ends the input |
| AmlLocality.OpenIfTakesElse | exp/aml/aml.cpp:1831-1841 | such an `If` takes an `Else` that follows |
| Unwind.UnwindOneCall | attos/pe.cpp:60-171 | the search and the loop follow the unwinding function, halting included |
| Unwind.RunCodes | attos/pe.cpp:86-169 | so does the loop over the codes, operands skipped |
| Unwind.CodesUndo | attos/pe.cpp:86-170 | stopped anywhere, the codes undo exactly what has run of the prologue |
| Unwind.OperandsSkipped | attos/pe.cpp:108-151 | one code is decoded for each instruction, and no operand |
| Unwind.FoundExactly | attos/pe.cpp:28-40 | in an ordered table the search finds the function that an address is in, or none in a leaf function, if and only if no other function ends at that address; otherwise it finds that one |
| Unwind.UnwindReturns | attos/pe.cpp:50-56 | from any place in a function where no other one ends, unwinding gives the stack pointer and address called from, or interrupted at; leaf functions included |
| Unwind.SeamUnwinds | attos/pe.cpp:60-171 | where another function ends, that one's whole prologue is undone instead |
| Unwind.SeamExactly | attos/pe.cpp:60-171 | so there a call is unwound if and only if the other function's prologue does not move the stack pointer |
| Unwind.AdjoiningFunctions | attos/pe.cpp:34-38 | two adjoining functions and a stack for which the wrong return address is taken |
| Unwind.WholeStack | attos/pe.cpp:188-209 | repeated unwinding meets every activation on the stack, in order, leaf functions included |
| Unwind.CallStands | attos/pe.cpp:60-171 | a call, and any part of the callee's prologue, leaves a stack that unwinds, unless it is stopped where another function ends |
| Unwind.InterruptStands | attos/pe.cpp:157-167 | so does an interrupt at any such place, and its handler unwinds to what was interrupted |
| Unwind.HaltsExactly | attos/pe.cpp:60-171 | unwinding halts if and only if the function found has information of another version, or chained, or with an offset from no frame register, or a code that is not handled among those that are read |
| Checksum.InetCsum | attos/net/net.cpp:29-42 | the loop sums any buffer without overflow of 32 bits |
| Checksum.CsumIsComplement | attos/net/net.cpp:29-42 | it is the complement of the one's-complement sum (section 1 of RFC 1071) |
| Checksum.FillVerifies | attos/net/net.cpp:29-42 | with its checksum in a zeroed even field a buffer sums to zero, and with another value only if that is congruent |
| Datagrams.SendTo | attos/net/tftp.cpp:69-95 | the bytes sent are the datagram with its header checksum filled |
| Datagrams.Answer | attos/net/tftp.cpp:344-375 | the bytes answered are the echo reply with both checksums filled |
| Datagrams.DatagramArrives | attos/net/tftp.cpp:168-302 | every datagram passes all checks of its receiver and is delivered as it was, whatever pads the frame |
| Datagrams.EchoArrives | attos/net/tftp.cpp:282-378 | so is every echo reply |
| Datagrams.DatagramBytes | attos/net/tftp.cpp:69-95 | what is sent, byte by byte: RFC 791 section 3.1 and RFC 768 |
| Datagrams.EchoBytes | attos/net/tftp.cpp:344-375 | so for the echo reply |
| Datagrams.CarriedIsDelivered | attos/net/tftp.cpp:168-302 | every frame that carries a datagram, with options, slack and padding of any length, is delivered as that datagram |
| Datagrams.DeliveredIsCarried | attos/net/tftp.cpp:168-302 | and no other frame is: every datagram delivered is carried by its frame |
| Sockets.OpenKeeps | attos/net/tftp.cpp:115-131 | opening keeps bindings unique and specific ones before wildcards |
| Sockets.CloseExactly | attos/net/tftp.cpp:408-413 | closing erases exactly the socket that is closed |
| Sockets.ReceiverExactly | attos/net/tftp.cpp:388-406 | a datagram goes to the specific socket, else to the wildcard, else to nobody |
| Sockets.RunKeeps | attos/net/tftp.cpp:115-153 | the table is in order in every run |
| Sockets.FreePort | attos/net/tftp.cpp:116-123 | the lowest free port from 49152 |
| Sockets.SocketTable.UdpOpen | attos/net/tftp.cpp:115-131 | the vector follows the table on opening |
| Sockets.SocketTable.UdpClose | attos/net/tftp.cpp:408-413 | and on closing |
| Sockets.SocketTable.Erase | attos/containers.h:83-90 | erasing moves those behind up by one and keeps the rest |

## Left out

- TableOps.UnmapPages: what the loop does after it has taken a large page for a table; it goes on, and writes into what that page maps.
- Unmapping.RunKeepsUsers: the same; what a large page maps is no part of the model.
- Unmapping.RunKeepsKernelExactly: the same.
- Unmapping.RunOnAll: the same.
- Agreement.StepAgrees: the same, for the pages an unmapping has done.
- Machine.MapIn: the methods are followed from states that are in order; from all others a run goes on as values only (`Agreement.RunAgrees`). So for Machine.UnmapIn.
- AddressSpace.AddressSpace.UnmapMemory: what the loop does after it has taken a large page for a table; it goes on to write into what that page maps.
- AddressSpace.AddressSpace.MapMemory: what a request refused halfway leaves behind; and ranges so long that physical addresses pass 2^52 and spill into the flags of an entry.
- AmlParser.ParseObject: an unbound name inside an `If` or a `While` ends the reading inside that package, so its rest is no suffix of the whole input.
- Unwind.UnwindReturns: stack pointers that move after the prologue, and epilogues, which the source does not handle either; an operand missing at the end of a code table halts in the model, where the source reads on.
- AmlParser.ParseList: the loop that the parse functions call is a recursion, because they are pure; `AmlParser.ReadList` is the loop.
- Page frames are a map from frame address to a table of entries, not identity-mapped pointers; entries are structured, and `EntryBits` covers their packing and the accessed and dirty bits.
- The page of mapping records of an address space is only counted (85 records); its frame is not drawn from the heap.
- Tables left empty by unmapping stay, and one that a large page is written over is never freed: nothing is claimed about those.
- The nested loops of the address-space destructor are one recursive method over levels.
- The payload words of the heap are 16-byte granules: what a client stores is one value in each.
- Writing CR3 is setting a variable; interrupts, hardware context switches, logging and object protocols other than processes are not modelled.
- Processes are named by numbers instead of addresses, and the file image of a new process is the registers it starts with, or a refusal.
- The server's files are a map by name; names differing only in case, and the missing terminator of a write session's stored name (exp/tftp/tftps.cpp:207), are not modelled.
- The network delivers to a client what the server sent to it, and no transfer begins with packets of an earlier one under way; the source checks neither.
- AML fields, regions, mutexes, notifications, processors, power resources, Divide, CondRefOf, Acquire and Release stop the reading as outside the model; evaluation and printing are left out.
- Looking up the null name reads past its end in the source; the model searches the enclosing scopes.
- Destroying parsed nodes, which unbinds their names when a list is given up, is not modelled: the system halts on such a list.
- An IPv4 length below its header's is malformed in the model; the source's difference wraps.
- DHCP, ARP, routing and Ethernet addresses: small, or with claims that do not hold.
- Drivers, the boot loader, number formatting, containers other than the socket vector: device effects, or easy members.
