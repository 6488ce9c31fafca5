# Verified models for the BareMetal application port

The port runs ordinary C programs on BareMetal OS. It consists of three shims of its own (a flat file
system, a blocking socket layer and a system-call layer) and of vendored musl and lwIP. This project
models the parts of it whose correctness is hard to see and proves what they promise. To verify all of it,
use `dafny verify dfyconfig.toml`.

What is modelled, by component:

- **Dynamic linker** (`app/musl-1.2.6/ldso`). The order in which constructors run, computed by a depth-first
  search whose queue and stack share one buffer (`CtorOrder`, `CtorExact`, `CtorQueue`); the dependency list that grows
  while it is iterated (`BfsDeps`); the Bloom-filtered GNU hash table (`GnuHash`); the placement of TLS
  blocks (`TlsLayout`, `TlsCopy`); RELR relocation (`Relr`). DSOs are heap objects with mutable marks and lists.
- **lwIP sockets and netconns** (`app/lwip-2.2.0/src/api`). `select` without lost wake-ups (`SelectWake`) and
  the reference count of a socket with its deferred free (`SocketRefs`), both as state machines whose steps
  are the sections that the source protects, taken by any number of threads in any order; the operations and
  callbacks of a TCP netconn (`Netconns`) with the resumable write of several vectors (`VectorWrite`).
- **Internet checksum** (`app/lwip-2.2.0/src/core/inet_chksum.c`). The three algorithms and the sums over
  pbuf chains, against section 1 of RFC 1071 (`OnesComplement`, `StandardChksum`, `ChainChksum`).
- **BMFS** (`app/bmfs.c`). The byte-addressed API over 4096-byte sectors, proved to be a map from names to
  files (`BmfsDisk`, `BmfsFormat`, `BmfsSpec`, `BmfsEffects`, `BmfsLayout`, `BmfsApi`, `BmfsLaws`, `BmfsRun`), and the
  vectored calls above it (`VectoredIo`).
- **Blocking sockets** (`app/net_shim.c`). The received byte stream (`ShimRecv`) and the rings of accepted
  connections (`ShimAccept`).

The outside world comes in as parameters: the disk is a total map from sector numbers to sectors, a poll is
the list of callbacks it runs together with the clock afterwards, and each call into TCP is a value it may
return. A call that would still be waiting when the given polls run out reports that, and so does a loop that
would still be running when the given answers run out.

Where the code does not do what one would expect of it, the model follows the code:

- Constructors: what a direct dependency that cannot reach its dependent reaches comes before the dependent
  (`CtorOrder.ReachedFirst`), and a DSO on no cycle comes after all its dependencies. For other indirect
  dependencies the order can fail (`CtorOrder.IndirectOrderFailsInCycle`). `CtorExact.OrderIff` says exactly
  which pairs are ordered however the dependency lists are ordered.
- The length assertion in the partial checksum loop holds only below a bound that
  `ChainChksum.InetChksumPseudoPartial` states exactly; the sum itself is right in any case.
  `ChainChksum.PartialAssertionFails` is an input beyond the bound.
- The assertion in `sock_inc_used_locked` can fail on a descriptor whose socket has been freed late
  (`SocketRefs.AssertFailsAfterDeferredFree`). It fails exactly on an empty slot whose pending flag is still
  set (`SocketRefs.AssertHoldsIff`), never on an open socket. The 8-bit count itself overflows, and another
  assertion with it, exactly when 255 references are held and one more is taken (`SocketRefs.IncAssertionIff`).
- The inner loop of `lwip_netconn_do_writemore` compares a length with its own value cut to 16 bits. It
  can repeat without effect exactly when the write blocks and a vector other than the last exceeds 0xffff
  bytes (`VectorWrite.SpinIff`), and then runs on while no room comes (`VectorWrite.SpinRuns`). In all other
  cases it ends (`VectorWrite.LoopEnds`).
- The assertion of `lwip_netconn_do_close` fails exactly when a close is already waiting
  (`Netconns.Netconn.DoClose`); `Netconns.SecondShutdown` reaches it.
- `bmfs_write` of no bytes fails with ENOSPC, so an empty buffer ends a `writev`;
  `VectoredIo.WritevIsWrite` says exactly when a `writev` is one write, `VectoredIo.EmptyBufferStops` shows one
  that is not.
- `net_shim_recv` returns 0 not only at the end of the stream but also for an empty pbuf at the head of the
  chain; `ShimRecv.Socket.NetRecv` states both cases, `ShimRecv.EmptyPbufReads` is one of the second.
- A connection that `net_shim_accept` hands out may have no pcb, from which a caller's address buffer would be
  filled. For one that waits before the call this is so exactly when its slot is in the error state
  (`ShimAccept.Shim.NetAccept`). A slot gets there by a reset after the connection was queued and in no other
  way (`ShimAccept.LiveUntilReset`); `ShimAccept.HandOutReset` hands out such a connection.

## Model

| member | source | states |
|---|---|---|
| CtorQueue.QueueCtors | app/musl-1.2.6/ldso/dynlink.c:1508-1565 | for every dependency graph the in-place search ends; the queue holds exactly the DSOs reachable from the root, each once, root last, ended by NULL inside the buffer; each DSO comes after all it reaches around the DSOs on one path to it; no DSO of the queue stays marked; the queue is the one the search on values yields |
| CtorQueue.SearchInPlace | app/musl-1.2.6/ldso/dynlink.c:1539-1564 | queue and stack never meet in a buffer with one slot more than there are reachable DSOs, and the queue that results is the constructor queue |
| CtorQueue.Prepare | app/musl-1.2.6/ldso/dynlink.c:1515-1527 | the count found by either way of clearing marks exceeds the number of reachable DSOs, all of which end up unmarked |
| CtorQueue.ClosureIsDepsComplete | app/musl-1.2.6/ldso/dynlink.c:1515-1522 | a list built by extend_bfs_deps is one that the shorter way of counting may rely on |
| CtorOrder.StepInv | app/musl-1.2.6/ldso/dynlink.c:1549-1563 | each step of the search keeps its invariant, in any graph |
| CtorOrder.DoneIsCtorQueue | app/musl-1.2.6/ldso/dynlink.c:1549-1564 | when the stack is empty the queue is a constructor queue: complete, without repeats, root last, each DSO in its place |
| CtorOrder.MarkedBound | app/musl-1.2.6/ldso/dynlink.c:1539-1563 | queue and stack together never hold more entries than there are reachable DSOs |
| CtorOrder.PlacedByStack | app/musl-1.2.6/ldso/dynlink.c:1549-1563 | when a DSO is queued, all it reaches around the stack is queued before it, and the stack is a path from the root whose DSOs come later |
| CtorOrder.ReachedFirst | app/musl-1.2.6/ldso/dynlink.c:1549-1563 | in every graph, what a dependency that cannot reach its dependent reaches precedes the dependent |
| CtorOrder.AroundPathsFirst | app/musl-1.2.6/ldso/dynlink.c:1549-1563 | in the queue of the source itself, over DSO references: if on every simple path from the root to a DSO there is a way from it to another around the earlier DSOs of the path, the other one precedes it |
| CtorOrder.OffCycleOrder | app/musl-1.2.6/ldso/dynlink.c:1549-1563 | a DSO on no cycle comes after all its dependencies, direct or not, whatever the rest of the graph |
| CtorExact.OrderIff | app/musl-1.2.6/ldso/dynlink.c:1549-1563 | one DSO precedes another for every order of the dependency lists exactly when, for each simple path from the root to the later one, a walk from it to the earlier one avoids the path |
| CtorExact.StackGivesOrder | app/musl-1.2.6/ldso/dynlink.c:1549-1563 | such walks order the pair, because the stack is such a path |
| CtorExact.PathBreaksOrder | app/musl-1.2.6/ldso/dynlink.c:1549-1563 | a path without such a walk gives an order of the lists in which the search does not order the pair |
| CtorExact.Finishes | app/musl-1.2.6/ldso/dynlink.c:1549-1563 | the search ends in every graph |
| CtorOrder.IndirectOrderFailsInCycle | app/musl-1.2.6/ldso/dynlink.c:1549-1563 | a graph of three DSOs where an indirect dependency that cannot reach its dependent comes after it |
| BfsDeps.ExtendBfsDeps | app/musl-1.2.6/ldso/dynlink.c:1303-1352 | the growing list ends; it keeps the direct dependencies in front, then lists each further DSO once, breadth first: behind the first listed DSO that needs it, in the order of those DSOs and, for the same one, of its direct list; it holds exactly the DSOs reachable through direct edges; all marks are clear again |
| BfsDeps.Grow | app/musl-1.2.6/ldso/dynlink.c:1316-1348 | the loop over the growing list stays inside its reallocated buffer and ends in the closure, in breadth-first order, also when the DSO depends on itself through a cycle |
| BfsDeps.AppendInOrder | app/musl-1.2.6/ldso/dynlink.c:1340-1344 | a dependency that is appended has the DSO being expanded as its first dependent, and all appended before are due before it |
| GnuHash.GnuHash | app/musl-1.2.6/ldso/dynlink.c:248-255 | the loop computes 5381 * 33^n + the sum of s[i] * 33^(n - 1 - i), modulo 2^32 |
| GnuHash.HashSnoc | app/musl-1.2.6/ldso/dynlink.c:248-255 | the empty name has hash 5381, and one more byte makes it 33 times as much plus the byte, modulo 2^32 |
| GnuHash.KnownHashes | app/musl-1.2.6/ldso/dynlink.c:248-255 | the published hashes of two names |
| GnuHash.Lookup | app/musl-1.2.6/ldso/dynlink.c:271-290 | in a well-formed table the chain walk ends with the lowest hashed symbol of that name and a visible version, or with nothing exactly when a scan of all hashed symbols finds none |
| GnuHash.LookupFiltered | app/musl-1.2.6/ldso/dynlink.c:292-302 | the same answer through the Bloom filter, which never hides a symbol; the 64-bit tests are those of the two bits per symbol that the format sets in 32-bit words |
| TlsLayout.TlsState.PlaceAll | app/musl-1.2.6/ldso/dynlink.c:1227-1239 | any run of loads adds behind the old blocks, in order, exactly the blocks of the libraries with a TLS image, with their image, size and alignment; in both layouts all blocks are disjoint and aligned with their images, and tls_align is the largest alignment and a multiple of all |
| TlsLayout.TlsState.PlaceLibrary | app/musl-1.2.6/ldso/dynlink.c:1227-1239 | the mask arithmetic places one more block beyond the others, congruent to its image |
| TlsLayout.TlsState.PlaceApp | app/musl-1.2.6/ldso/dynlink.c:1923-1937 | the program's own block is placed first, behind the gap where there is one, congruent to its image |
| TlsLayout.MaxP2IsMax | app/musl-1.2.6/ldso/dynlink.c:44 | the bit trick is the maximum of two powers of two below 2^64 |
| TlsCopy.CopyTls | app/musl-1.2.6/src/env/__init_tls.c:39-72 | the vector holds one address per block, congruent to its image; blocks, thread structure and vector lie apart in the area, in both layouts |
| TlsCopy.PointerOk | app/musl-1.2.6/ldso/dynlink.c:1635-1645 | the masks of both layouts give a thread pointer aligned to tls_align, and an area of tls_size bytes holds all that is put into it |
| Relr.StageOne | app/musl-1.2.6/ldso/dlstart.c:144-157 | memory ends as the old memory with the base added at each location that the table names |
| Relr.DoRelrRelocs | app/musl-1.2.6/ldso/dynlink.c:559-575 | the same memory as stage one, and no change for the linker itself |
| Relr.RelocatedAt | app/musl-1.2.6/ldso/dynlink.c:559-575 | a word gains the base as often as it is named, modulo 2^64, and a word that is not named is unchanged |
| Relr.NamedOnce | app/musl-1.2.6/ldso/dynlink.c:559-575 | if no location is named twice, each gains the base once |
| Relr.NamedIff | app/musl-1.2.6/ldso/dynlink.c:559-575 | a word is named exactly by an address entry, or by bit k of the m-th bitmap behind one, as the word 63 * (m - 1) + k behind its word |
| SelectWake.NoLostWakeup | app/lwip-2.2.0/src/api/sockets.c:2074-2163 | in every run, told from its steps: a select that asked for an event and has not returned, while more of it came than was taken away, waits only with its semaphore signalled or a callback under way that will signal it |
| SelectWake.ReadyIff | app/lwip-2.2.0/src/api/sockets.c:2561-2590 | after every run the receive count of a socket is the number of receive events less those taken, it can be sent to exactly if the last send event said so, and has an error exactly if one came |
| SelectWake.NoFalseWakeup | app/lwip-2.2.0/src/api/sockets.c:2621-2693 | in every run a select is signalled, or finds something, only for an event that it asked for and that was there, or for unread data |
| SelectWake.Returns | app/lwip-2.2.0/src/api/sockets.c:2074-2163 | a select takes at most 3 * maxfd + 4 steps of its own from linking its entry until it is ready to unlink it |
| SelectWake.CanGoOn | app/lwip-2.2.0/src/api/sockets.c:2074-2163 | a select that is linked can always take a step |
| SelectWake.CountGivesUpIff | app/lwip-2.2.0/src/api/sockets.c:2074-2108 | counting gives up exactly at a descriptor without a socket or with 255 calls waiting on it |
| SelectWake.CallbackDelivers | app/lwip-2.2.0/src/api/sockets.c:2621-2693 | such a callback has signalled that select after as many of its visits as the list is long, whatever other threads do in between, as long as no select is linked or unlinked |
| SelectWake.StepInv | app/lwip-2.2.0/src/api/sockets.c:1808-1854 | linking, counting, rescanning, waiting, dropping, unlinking, event callbacks and list visits with their restart on the generation counter all keep the protocol's invariant |
| SelectWake.ReachableInv | app/lwip-2.2.0/src/api/sockets.c:2522-2606 | the invariant holds after every interleaving of those steps |
| SocketRefs.StepInv | app/lwip-2.2.0/src/api/sockets.c:373-440 | every alloc, get, done and close keeps fd_used, at most 255, equal to the number of references held |
| SocketRefs.UsedCountsReferences | app/lwip-2.2.0/src/api/sockets.c:467-509 | in every interleaving fd_used is the number of references held, a netconn handed out is still in its slot and not released, and none is released twice |
| SocketRefs.IncAssertionIff | app/lwip-2.2.0/src/api/sockets.c:373-392 | the assertion after the 8-bit increment holds exactly when a free is pending or fewer than 255 references are held |
| SocketRefs.ReleasedUnreferenced | app/lwip-2.2.0/src/api/sockets.c:587-650 | a netconn is released only when it was closed and nobody holds a reference to its slot |
| SocketRefs.AllocUnreferenced | app/lwip-2.2.0/src/api/sockets.c:539-580 | a slot is never given out while references to it are held |
| SocketRefs.AllocStores | app/lwip-2.2.0/src/api/sockets.c:539-580 | the netconn is then in the slot, with its creator as the only holder |
| SocketRefs.GetIff | app/lwip-2.2.0/src/api/sockets.c:373-392 | taking a reference and looking gives the caller the netconn exactly if it is in the slot and was not closed |
| SocketRefs.ClosedDrains | app/lwip-2.2.0/src/api/sockets.c:373-440 | once a netconn is closed, the references to its slot only become fewer, in every run |
| SocketRefs.ClosedIsReleased | app/lwip-2.2.0/src/api/sockets.c:415-440 | a closed netconn without references has been released |
| SocketRefs.AssertHoldsIff | app/lwip-2.2.0/src/api/sockets.c:396-409 | the assertion on fd_used fails exactly on an empty slot whose pending flag is still set |
| SocketRefs.AssertFailsAfterDeferredFree | app/lwip-2.2.0/src/api/sockets.c:396-409 | a run of one close during one use that leaves such a slot |
| VectorWrite.Writemore | app/lwip-2.2.0/src/api/api_msg.c:1644-1807 | the bytes passed to tcp_write are exactly those between the old and the new offset of the concatenated vectors; a blocking write succeeds only at the full length, and one that waits meets the entry assertions; a non-blocking one is always done once its loop ends, with ERR_WOULDBLOCK only if nothing was written; every error has its cause; a write that finds room all the way is done with success at the full length; the loop is still running only in the case of VectorWrite.SpinIff or with fewer answers than there are bytes and vectors |
| VectorWrite.WriteLoop | app/lwip-2.2.0/src/api/api_msg.c:1680-1730 | the inner loop passes on the data in order, one accepted chunk after another, up to the first pass that is refused or does not call for another, or to the last answer given |
| VectorWrite.WritePass | app/lwip-2.2.0/src/api/api_msg.c:1681-1729 | one turn ends without error exactly when tcp_write accepts the chunk, or a non-blocking write leaves the loop after data was written; an accepted chunk is the least of what is left of the vector, 0xffff and the send buffer; each error has its cause, and when it calls for another turn |
| VectorWrite.LoopIsOk | app/lwip-2.2.0/src/api/api_msg.c:1680-1730 | the loop keeps offset and vector in step, ends in an error only for its cause, has data left when it is short of memory, and a non-blocking one that ends without error has written something |
| VectorWrite.LoopEnds | app/lwip-2.2.0/src/api/api_msg.c:1680-1730 | a loop that does not block, or whose vectors but the last have at most 0xffff bytes, ends within as many passes as bytes and vectors are left |
| VectorWrite.AllGoes | app/lwip-2.2.0/src/api/api_msg.c:1680-1730 | with room for each chunk at every pass all data goes, however long the vectors are |
| VectorWrite.TakesWhatFits | app/lwip-2.2.0/src/api/api_msg.c:1680-1730 | one run of the loop with a send buffer that accepts what fits passes on exactly as much as there is room for |
| VectorWrite.DoneIff | app/lwip-2.2.0/src/api/api_msg.c:1644-1807 | across resumptions, a blocking write whose vectors but the last fit 16 bits is done with success exactly when the room it found adds up to its data |
| VectorWrite.DoneInTime | app/lwip-2.2.0/src/api/api_msg.c:1644-1807 | it is done after at most as many resumptions as it has bytes, if each finds some room |
| VectorWrite.SpinRuns | app/lwip-2.2.0/src/api/api_msg.c:1680-1730 | from a state in which a pass has no effect the loop is in the same state after any number of passes |
| VectorWrite.SpinIff | app/lwip-2.2.0/src/api/api_msg.c:1680-1730 | with any size of the send buffer, a run of passes that use it up, refusals and resumptions can be caught in a pass without effect exactly when the write blocks and a vector other than the last exceeds 0xffff bytes |
| VectorWrite.AdvanceInv | app/lwip-2.2.0/src/api/api_msg.c:1717-1729 | a chunk taken from the current vector is the next piece of the whole data |
| Netconns.Run | app/lwip-2.2.0/src/api/api_msg.c:359-508 | over any order of calls and callbacks every call is submitted, and every submitted message is acknowledged exactly once or is the current one and not acknowledged yet; a waiting close is acknowledged once its polls have come; every write has passed on the front of its data, and all of it if it blocks and was acknowledged with ERR_OK, in whichever callback; the run stops early only at a shutdown during a close, which needs an earlier delete or shutdown, or in a write loop that has not ended; the netconn ends exactly as the steps taken one after another leave it |
| Netconns.Netconn.CloseInternal | app/lwip-2.2.0/src/api/api_msg.c:924-1107 | only a want of memory with polls left keeps a close waiting, with its callbacks in place; otherwise it is acknowledged with the stated result; the pcb goes exactly with a close of both ways, of the receiving way after a FIN was sent, or of the sending way after the receiving one was shut; which callbacks a pcb that stays keeps |
| Netconns.Netconn.WriteMore | app/lwip-2.2.0/src/api/api_msg.c:1644-1807 | a write waits on with the same vectors and its entry assertions true, or is still in its loop, or is acknowledged once with a result that has its cause, with success if it finds room all the way; what it passed on is the front of what was submitted, all of it for a blocking success |
| Netconns.Netconn.DoDelconn | app/lwip-2.2.0/src/api/api_msg.c:1117-1210 | a delete is refused while an operation runs, done at once without a pcb, and else closes both ways |
| Netconns.Netconn.DoClose | app/lwip-2.2.0/src/api/api_msg.c:1938-2008 | the assertion holds exactly when no close is waiting; which shutdowns are refused, with which error, and that all others close |
| Netconns.SecondShutdown | app/lwip-2.2.0/src/api/api_msg.c:1938-2008 | two shutdowns, the first short of memory, of which the second fails the assertion |
| Netconns.Netconn.DoConnect | app/lwip-2.2.0/src/api/api_msg.c:1354-1419 | a connect waits exactly when the netconn is idle with a pcb and tcp_connect accepts it; else it is acknowledged at once, and each error has its condition |
| Netconns.Netconn.DoWrite | app/lwip-2.2.0/src/api/api_msg.c:1817-1862 | a pending error, a running operation and a missing pcb each refuse the write; any other is begun and recorded with its vectors, and acknowledged at once with success when there is room for it |
| Netconns.Netconn.PollTcp | app/lwip-2.2.0/src/api/api_msg.c:359-391 | a poll settles the current message or leaves it waiting, a close with one poll less, and never below one; a write it completes has passed all its data on |
| Netconns.Netconn.SentTcp | app/lwip-2.2.0/src/api/api_msg.c:400-425 | the same for an acknowledgement of data, without using up a poll |
| Netconns.Netconn.ErrTcp | app/lwip-2.2.0/src/api/api_msg.c:434-508 | the pcb is gone and the current message, if any, is acknowledged: a close with success, others with the error |
| Netconns.Netconn.Connected | app/lwip-2.2.0/src/api/api_msg.c:1304-1343 | when tcp calls it the netconn is connecting with a message, which it acknowledges |
| StandardChksum.Chksum1 | app/lwip-2.2.0/src/core/inet_chksum.c:79-114 | the byte-swapped RFC 1071 sum, for up to 0x20000 bytes |
| StandardChksum.Chksum2 | app/lwip-2.2.0/src/core/inet_chksum.c:132-173 | the same value for every start alignment; the 32-bit sum does not overflow |
| StandardChksum.Chksum3 | app/lwip-2.2.0/src/core/inet_chksum.c:188-255 | the same value for every start alignment and length |
| StandardChksum.TwoFolds | app/lwip-2.2.0/src/core/inet_chksum.c:104-108 | two folds bring every 32-bit sum to its 16-bit representative |
| OnesComplement.LittleEndianSum | app/lwip-2.2.0/src/core/inet_chksum.c:79-114 | adding words in host order gives the byte-swapped network-order sum |
| ChainChksum.InetChksum | app/lwip-2.2.0/src/core/inet_chksum.c:555-558 | the RFC 1071 checksum of a buffer |
| ChainChksum.InetChksumPbuf | app/lwip-2.2.0/src/core/inet_chksum.c:568-588 | for every split into pbufs, odd lengths included, exactly the RFC 1071 checksum of the concatenation |
| ChainChksum.InetChksumPseudo | app/lwip-2.2.0/src/core/inet_chksum.c:259-327 | the checksum of the pseudo header of section 3.1 of RFC 9293 followed by the concatenation |
| ChainChksum.InetChksumPseudoPartial | app/lwip-2.2.0/src/core/inet_chksum.c:398-473 | the same over the first chksum_len bytes; the loop's length assertion holds exactly below the stated bound |
| ChainChksum.PartialAssertionFails | app/lwip-2.2.0/src/core/inet_chksum.c:398-440 | a chain of two pbufs on which the assertion fails |
| ChainChksum.ReceiverAccepts | app/lwip-2.2.0/src/core/inet_chksum.c:555-558 | a message that carries its checksum sums to 0xffff, the receiver's test |
| BmfsRun.Session | app/bmfs.c:137-330 | any legal run of calls on a sound disk does to the map of files what the calls say; the disk is then sound, and mounting it again finds all files with their bytes, those not open with their size; if all is closed, exactly the final state |
| BmfsRun.BlankDisk | app/bmfs.c:75-81 | a disk with a blank directory is sound, holds no files and has room, so sessions can start on it |
| BmfsRun.Run | app/bmfs.c:137-330 | any legal run from any consistent state keeps it consistent and behaves like the map of files |
| BmfsApi.Bmfs.constructor | app/bmfs.c:70-81 | a disk with distinct names and disjoint extents from block 1 up stands for the map of its files |
| BmfsApi.Bmfs.Survives | app/bmfs.c:299-310 | at any time a fresh start on the same disk finds the same files with the same bytes, and the same size for each that is not open |
| BmfsApi.Bmfs.DirFind | app/bmfs.c:88-94 | the entry with that name up to 32 bytes, or -1 exactly when no used entry has it |
| BmfsApi.Bmfs.DirNextFreeBlock | app/bmfs.c:108-119 | the least block behind all extents |
| BmfsApi.Bmfs.Open | app/bmfs.c:137-197 | exactly which of the five errors comes when, without effect; else the first free descriptor, at the end in append mode and at the start otherwise; the file has size 0 if truncation was asked for or it is new, and is unchanged otherwise; all other files and descriptors are unchanged; the cached directory equals sector 1 |
| BmfsApi.Bmfs.Pread | app/bmfs.c:203-230 | the bytes of the file at that range, cut at its size |
| BmfsApi.Bmfs.Pwrite | app/bmfs.c:232-269 | changes exactly the bytes that fit, on the map and on the flat disk, and no other byte |
| BmfsApi.Bmfs.ReadRange | app/bmfs.c:210-228 | the sector loop returns that range of the flat disk |
| BmfsApi.Bmfs.WriteRange | app/bmfs.c:242-261 | the read-modify-write loop overwrites exactly that range of the flat disk |
| BmfsApi.Bmfs.Read | app/bmfs.c:271-278 | returns the bytes at the position up to the size, moves it by as many, and changes nothing else |
| BmfsApi.Bmfs.Write | app/bmfs.c:280-297 | writes what fits at the position or, in append mode, at the end, changes those bytes only, extends the size, moves the position behind; no room or no data fails with ENOSPC |
| BmfsApi.Bmfs.Lseek | app/bmfs.c:312-330 | the position counts from the start, the position or the size; what is negative, or would be cut to a negative long, is refused without effect |
| BmfsApi.Bmfs.Close | app/bmfs.c:299-310 | gives up the descriptor and no other, and leaves all files with their sizes, now also on the disk |
| BmfsApi.Bmfs.Unlink | app/bmfs.c:404-417 | removes exactly that name, of which 32 bytes count, or fails without effect |
| BmfsFormat.DirRoundTrip | app/bmfs.c:75-86 | the directory sector decodes to what was encoded |
| BmfsFormat.DirLayout | app/bmfs.c:18-23 | entry i is at byte 64 * i of the sector: the name, then start block, reserved blocks and size as little-endian numbers at 0x20, 0x28 and 0x30 |
| BmfsLayout.FullDirectory | app/bmfs.c:96-102 | there is a free entry exactly while the map holds fewer than 64 files |
| BmfsLaws.ReadBack | app/bmfs.c:203-269 | what a write took is what a read of the same range returns |
| BmfsLaws.SurvivesReopen | app/bmfs.c:137-330 | data written to a file is there after closing it, opening it again and seeking back, at any position that fits a long |
| BmfsLaws.RewriteIsExact | app/bmfs.c:137-330 | a file opened with creation and truncation, written, closed and opened again reads as exactly the data, whatever it held |
| BmfsLaws.AppendExtends | app/bmfs.c:280-297 | in append mode a write extends the contents, wherever the position is |
| BmfsLaws.UnlinkedIsGone | app/bmfs.c:137-197 | an unlinked name is not found by the next open, and creating it gives an empty file |
| BmfsLaws.SeekBack | app/bmfs.c:312-330 | a seek to the position that a seek of 0 from it returned undoes any other seek |
| BmfsLaws.SeekEnd | app/bmfs.c:312-330 | a seek of 0 from the end returns the size, and a read there returns nothing |
| VectoredIo.Writev | app/posix_shim.c:155-170 | the loop over the buffers leaves files, position and result as the fold of single writes does |
| VectoredIo.Readv | app/posix_shim.c:172-187 | the loop over the buffers returns what the fold of single reads does |
| VectoredIo.WritevIsWrite | app/posix_shim.c:155-170 | writev has the result, bytes, position and size of one write of the gathered data exactly when it has a buffer and no empty one cuts it short |
| VectoredIo.NonEmptyIsSmooth | app/posix_shim.c:155-170 | which is the case when no buffer is empty |
| VectoredIo.EmptyBufferStops | app/posix_shim.c:155-170 | a writev that fails for an empty first buffer although its data would fit |
| VectoredIo.ReadvIsRead | app/posix_shim.c:172-187 | readv is one read of the total length, for any buffers |
| ShimRecv.Serve | app/net_shim.c:84-113 | over any run of recv calls and callbacks, in and between them, the data returned followed by the data buffered is what was buffered before followed by what arrived, and the window is credited with the data returned while the pcb lives; each call has the result, and makes the polls, that its turn in the run calls for |
| ShimRecv.Socket.NetRecv | app/net_shim.c:308-328 | it waits only while there is nothing to report and time is left; it returns as many bytes of the first pbuf as fit; it returns 0 for a positive length exactly at the end of the stream with all read or for an empty pbuf; a reset is reported only when all was read |
| ShimRecv.RecvReports | app/net_shim.c:308-328 | for every chain, clock and list of polls: recv polls exactly while there is nothing to report and time is left, and which of its results comes when |
| NetShim.LateIff | app/net_shim.c:325-326 | time is up exactly from 30000 ms after the start on, also when the 32-bit clock wraps around |
| ShimRecv.EmptyPbufReads | app/net_shim.c:285-328 | a recv that returns 0 for an empty pbuf before the end of the stream |
| ShimRecv.Socket.Read | app/net_shim.c:285-306 | returns the next bytes of the first pbuf, loses none, and credits the window with exactly those while the pcb lives |
| ShimRecv.Socket.OnRecv | app/net_shim.c:84-104 | appends what arrives without error and keeps the stream in order; no pbuf means the end |
| ShimRecv.Socket.NetPoll | app/net_shim.c:84-113 | any list of callbacks appends what arrives, marks the end and drops the pcb on an error |
| ShimAccept.Run | app/net_shim.c:123-253 | over any run of socket, listen, accept, close and callbacks, told from the calls and their results alone: a descriptor is returned only while the application does not hold it; every listener that stays open accepts exactly what arrives for it and is not refused, in order, and hands out, in the slots of the descriptors returned, exactly the front of that |
| ShimAccept.RunHolds | app/net_shim.c:123-253 | the descriptors held are those returned and not closed, each returned only while it was not held |
| ShimAccept.RunInOrder | app/net_shim.c:123-253 | what a listener that stays open has accepted grows by what arrives for it, what it has handed out by what is in the slots returned, and the second stays a front of the first |
| ShimAccept.AcceptWaits | app/net_shim.c:223-234 | accept waits exactly through the polls that bring nothing for the listener and are not late; then it hands out the oldest connection, or fails with EAGAIN at the first late poll, or with EINVAL if the socket does not listen |
| ShimAccept.LiveUntilReset | app/net_shim.c:106-113 | a waiting connection has its pcb after any callbacks exactly if it had it before and none of them resets it |
| ShimAccept.HandOutReset | app/net_shim.c:223-253 | an accept that hands out a connection without a pcb |
| ShimAccept.Shim.NetAccept | app/net_shim.c:223-253 | hands out the next connection of this listener not yet handed out, as a descriptor that the application did not hold; other listeners hand out nothing; with a connection waiting it returns that at once, without a pcb exactly when its slot is in the error state; else as ShimAccept.AcceptWaits says |
| ShimAccept.Shim.NetPoll | app/net_shim.c:106-152 | the callbacks due do, one after another, what each does: connections that find a listener, a place in its ring and a slot are queued in order, resets take the pcb away, and nothing else changes |
| ShimAccept.Shim.OnAccept | app/net_shim.c:123-152 | queues a new connection behind the others in the first free slot; it is refused with ERR_VAL exactly for an error or no pcb, with ERR_MEM exactly with 8 waiting or all 16 slots in use |
| ShimAccept.Shim.AllocSlot | app/net_shim.c:63-69 | the first free slot, or -1 when there is none; it is in no queue and not in the application's hands |
| ShimAccept.Shim.NetSocket | app/net_shim.c:170-192 | a new socket gets the first free slot, as descriptor 100 + slot; each of its three errors has its exact condition and changes no slot |
| ShimAccept.Shim.NetListen | app/net_shim.c:207-221 | the socket listens on its new pcb, and no queue changes |
| ShimAccept.Shim.NetClose | app/net_shim.c:372-399 | frees the slot and disturbs no queue |
| ShimAccept.PushQueue | app/net_shim.c:145-147 | with tail = head + count modulo 8, storing at the tail appends to the queue |
| ShimAccept.PopQueue | app/net_shim.c:236-238 | taking from the head removes the oldest entry |
| ShimAccept.EnqueueOk | app/net_shim.c:132-147 | queueing in a free slot keeps every slot in at most one place and every listener's order |
| ShimAccept.DequeueOk | app/net_shim.c:236-240 | so does handing out the oldest |

## Left out

- Kernel calls, start-up assembly, inline assembly, the network driver glue, DHCP and the demo programs.
- The system-call dispatcher, stat, ioctl, clock and the brk/mmap arena of posix_shim.c.
- bsock_write, net_shim_send, net_shim_connect and net_shim_bind: forwarding loops of the same shape as those modelled.
- lwIP's TCP, pbuf, memp and mailbox code: its calls return any value of their type, except that tcp_close of a listening pcb succeeds, tcp_write of no bytes is not refused for memory (app/lwip-2.2.0/src/core/tcp_out.c:319-320), and the error callback does not report ERR_OK.
- lwip_poll, socket options, name resolution, altcp, UDP and raw netconns.
- Relocation types other than RELR, path search, file mapping, symbol versions beyond hidden or not, locks and longjmp recovery in dynlink.c.
- CtorQueue.QueueCtors: leaves out the check for constructor visitors lost in a fork at its end; requires that a list marked as built came from extend_bfs_deps; allocation succeeds.
- BfsDeps.ExtendBfsDeps: allocation succeeds, and the choice between malloc and realloc by the list's origin is not modelled.
- GnuHash.Lookup: requires a well-formed table, and takes the version word of a symbol as hidden or not.
- TlsLayout.TlsState.PlaceLibrary: requires that offsets do not wrap around 2^64, as TlsCopy.CopyTls does of the area's size.
- Relr.StageOne: requires a table that begins with an address entry and names words inside the memory.
- SelectWake.NoLostWakeup: starts at the linking of the select, after its first scan; sockets are not closed and reused during a select, and the list's pointers are a sequence.
- SelectWake.ReadyIff: the receive count is unbounded, not the source's 16-bit one.
- SelectWake.CallbackDelivers: counts visits while the list does not change, since a change restarts the walk.
- SocketRefs.StepInv: a run ends at a failed assertion of sock_inc_used; leaves out lwip_poll, whose pairing is not balanced.
- VectorWrite.Writemore: leaves out the send timeout, the PSH flag and SSIZE_MAX.
- Netconns.Run: blocking connects, no core locking, no full duplex, no send timeout or linger; a write passes at least one byte, as netconn_write_vectors_partly sees to.
- Netconns.Netconn.WriteMore: after a tcp_close that failed for a reason other than memory the pcb has no callbacks, and a write that then has to wait is not promised to be resumed.
- StandardChksum.Chksum1: lengths beyond 0x20000, where the 32-bit sum may overflow, are excluded, as for StandardChksum.Chksum2.
- BmfsApi.Bmfs.Open: requires that the file is not open yet, since two descriptors keep separate sizes, and that block numbers are left for a new file.
- BmfsApi.Bmfs.Unlink: requires that the file is not open.
- BmfsApi.Bmfs.Write: positions and lengths do not wrap around 2^64.
- ShimRecv.Socket.NetRecv: waits for the given polls only; with an endless supply and a clock that moves, the limit of 30 seconds ends it.
- ShimAccept.Shim.NetAccept: does not copy the peer's address, only says when there is a pcb to take it from.
- ShimAccept.Shim.NetClose: connections still in a closed listener's ring stay in their slots for good, as in the source.
