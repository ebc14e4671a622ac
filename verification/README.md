# lwIP core and tunnel queues: a verified model

A Dafny 4.11 model of the stateful parts of lwIP and of the native queues that connect it to a tunnel, with proofs of
what they keep over every run. `dafny verify dfyconfig.toml` checks all of it.

Machine integers are ranges of mathematical ones (`Bytes.dfy`); casts and wrap-around are written out. Addresses are
numbers and 0 is NULL (`Lists.dfy`). Fields that the C code assigns are class fields which methods reassign; what a
method does is tied to a specification function or relation, and lemmas say what these mean without naming how they are
computed. Application callbacks are data: scripts of calls, or functions from what the application can see to such
scripts and to an answer. They may call whatever they like in any order, but with blocks that exist and not against the
assertions of the function called; their answers are free. Results of code outside the model (memory found, room in the
send buffer, time read) are parameters.

| files | C code |
|---|---|
| `Alignment.dfy`, `HeapLayout.dfy`, `Heap.dfy` | the heap of `mem.c`: a block list in ghost state, headers in an array |
| `Lists.dfy`, `PbufGraph.dfy`, `PbufBytes.dfy`, `PbufMemory.dfy` | packet buffers as a reference graph and as flat bytes |
| `PbufAlloc.dfy`, `PbufDechain.dfy`, `PbufResize.dfy`, `PbufHeader.dfy`, `PbufRead.dfy`, `PbufWrite.dfy`, `Pbuf.dfy` | the operations of `pbuf.c` |
| `InternetSum.dfy`, `Checksum.dfy`, `ChainChecksum.dfy` | `inet_chksum.c` for both byte orders |
| `TcpPcbs.dfy`, `TcpCalls.dfy`, `TcpTimers.dfy`, `TcpTicks.dfy`, `TcpPolls.dfy`, `Tcp.dfy` | control blocks, listen backlog and timers of `tcp.c` |
| `ReceiveWindow.dfy`, `RefusedData.dfy` | receive window and refused data of `tcp.c` |
| `NetconnState.dfy`, `NetconnSteps.dfy`, `NetconnWrites.dfy`, `Netconn.dfy` | write, close and delete of a TCP connection in `api_msg.c` |
| `TimeoutList.dfy`, `TimerRun.dfy`, `TimerTimes.dfy`, `Timeouts.dfy` | `timeouts.c` |
| `MempSanity.dfy`, `Memp.dfy` | `memp.c` |
| `DnsName.dfy`, `Dns.dfy` | names in `dns.c` |
| `PbufQueue.dfy`, `Tunnel.dfy` | `native/queues.c` and the poll protocol: rings, logs of what became of each packet |
| `PbufHeld.dfy`, `Channel.dfy` | rings together with the memory of the packets in them |
| `Link.dfy`, `UdpFraming.dfy`, `UdpConn.dfy` | `native/link.c`, `native/udp.c` |

## Where the code does less than one might expect

- `tcp_backlog_delayed` does not look at the state of a connection. One delayed in TIME_WAIT is still counted after it is
  removed, as `tcp_pcb_purge` does not take it back; after removal the count is right exactly if the state was another
  (`TcpPcbs.DelayedTimeWait`). The model lets callbacks call it for connections in use only.
- `tcp_process_refused_data` goes on with the block unless the receive callback answers ERR_ABRT. A callback whose
  `tcp_close` finds unread data has the block deallocated, and the documentation does not let it answer ERR_ABRT as it
  has not called `tcp_abort` (`lwip/include/lwip/tcp.h:79-80`). Which callbacks are made follows from the stack and the
  application (`TcpTicks.AllOffered`), and a deallocated block is used exactly if one of them has its block deallocated
  and answers otherwise (`TcpTicks.DanglingIffCareless`, `TcpTicks.FastTick`); a single `tcp_close` does that exactly under
  the condition of `TcpCalls.ClosingIsCareless`, and `Tcp.CloseInCallback` is a run. `tcp_slowtmr` has no such use
  (`TcpTicks.PolledExists`).
- With window scaling the right edge a peer computes is cut to a multiple of 2^scale. The edge the stack remembers never
  moves left. That the one on the wire does not in any run holds exactly for scale 0: without scaling it never does
  (`ReceiveWindow.UnscaledNeverLeft`), and with any scale from 1 on there is a run in which it does
  (`ReceiveWindow.ScaledEdgeMovesLeft`).
- `dns_compare_name` neither checks that the name asked for is exhausted nor what stands between its labels, and reads on
  behind the NUL of a shorter name (`DnsName.AcceptsLessThanTheName`, `DnsName.AcceptsOtherDots`,
  `DnsName.CompareAcceptsExactly`). It decides rightly exactly if the labels agree in number and lengths or it rejects
  (`DnsName.RightExactly`).
- `pbuf_dechain` goes by the 8-bit count of `pbuf_free`. It returns a pointer to a deallocated pbuf exactly if a positive
  multiple of 256 were deallocated (`PbufDechain.TailDangles`), as for a chain of 257 (`PbufDechain.LongTailDangles`).
- `lwip_netconn_do_close` sets no error in the message exactly if another close is running
  (`NetconnSteps.CloseAnswers`).
- After `poll_tx` packets are left in the ring with no poll pending exactly if there were more than 32
  (`Tunnel.Tunnel.PollTx`), and after an append exactly if none was pending and `tcpip_try_callback` failed
  (`Tunnel.Tunnel.Send`).
- `udp_on_received` keeps the reference to a datagram exactly if there is no memory for its metadata
  (`UdpFraming.OnReceived`).
- `link_write` reports success although there was no memory for the packet; NULL is queued then (`Link.Link.Write`).
- `udp_conn_sendto` and `link_write` cut data of 64K or more to their length modulo 2^16, and report them as sent
  (`UdpConn.UdpConn.SendTo`, `Link.Link.Write`).
- 0xFFFF, the answer "not found" of `pbuf_memfind`, is also given for an occurrence exactly if the pattern is empty and
  both the length of the packet and the start are 0xFFFF (`PbufRead.MemFind`).
- `mem_trim` asserts that a block it splits is not the last one of the heap. The assertion fails exactly for the last
  block when the surplus is a block of its own (`Heap.Heap.Trim`), which a run reaches (`HeapLayout.TrimOfLastBlock`). The
  code behind the assertion is right there, too.
- In `plug_holes` the two tests that move `lfree` to the merged block are never true when it is called from `mem_free`
  (`Heap.Heap.FreeBlock`).

## Model

| member | source | states |
|---|---|---|
| HeapLayout.RunsStayWellFormed | lwip/core/mem.c:341-976 | over every run of malloc, free and trim calls the blocks tile the heap at aligned increasing offsets with the least size each, and no two neighbours are both free |
| HeapLayout.InitialWellFormed | lwip/core/mem.c:515-545 | the heap starts as one free block |
| HeapLayout.TrimOfLastBlock | lwip/core/mem.c:782-800 | the assertion on the next pointer fails after one allocation of the whole heap, where the code behind it makes a well-formed layout |
| HeapLayout.LiveBlocksDisjoint | lwip/core/mem.c:830-966 | two blocks in use never overlap |
| HeapLayout.LiveBlocksDetermineLayout | lwip/core/mem.c:473-510 | free space is always coalesced completely: the blocks in use alone determine the whole block list |
| HeapLayout.FirstFitIs | lwip/core/mem.c:870-966 | the block taken is the lowest free one that the size fits into, and there is none exactly if malloc fails |
| HeapLayout.MallocAllocates | lwip/core/mem.c:830-976 | a pointer that is returned is aligned and that of a new block in use, which was free before, touches no other block in use, holds the bytes asked for and no surplus that could be a block; no lower free block would do; nothing else changes, and NULL exactly if nothing fits |
| HeapLayout.AdmissibleIs | lwip/core/mem.c:843-857 | the checks of the size after its cast admit exactly sizes up to that of the heap |
| HeapLayout.TooHigh | lwip/core/mem.c:870-880 | a block that starts behind the last place where the size could end cannot hold it, so the bound of the search loop loses nothing |
| HeapLayout.TakeWellFormed | lwip/core/mem.c:886-950 | splitting a free block or taking it whole keeps the tiling, and the rest of a split has the least size |
| HeapLayout.ReleaseWellFormed | lwip/core/mem.c:616-686 | a released block is merged with free neighbours on both sides and the tiling is kept |
| HeapLayout.ShrinkWellFormed | lwip/core/mem.c:698-820 | shrinking a block gives its tail to a free successor or makes a new free block, and keeps the tiling |
| HeapLayout.TrimTrims | lwip/core/mem.c:698-820 | the block trimmed starts where it did, holds the bytes asked for and ends behind them, unless what follows is in use and the surplus is no block; NULL, which changes nothing, exactly for a size that is larger than the heap or the block |
| HeapLayout.ReleaseUndoesTake | lwip/core/mem.c:616-686 | freeing a block right after it was allocated restores the block list and the lowest free block |
| HeapLayout.ReleasesCommute | lwip/core/mem.c:616-686 | two blocks in use can be freed in either order with the same result |
| HeapLayout.ShrinkAfterTake | lwip/core/mem.c:698-820 | allocating and then shrinking ends with the same blocks as allocating the smaller size at once |
| Heap.Heap.constructor | lwip/core/mem.c:515-545 | the headers of the first block and of the end marker are those of the initial layout, and lfree is the lowest free block |
| Heap.Heap.LivePointerPlausible | lwip/core/mem.c:550-564 | the address of every block in use passes the checks of mem_free, so that freeing it is never rejected as illegal |
| Heap.Heap.PlugForward | lwip/core/mem.c:484-496 | merging with a free successor relinks the headers as the merged block list demands; lfree is moved exactly if it was above the lowest free block |
| Heap.Heap.PlugBackward | lwip/core/mem.c:498-509 | merging with a free predecessor relinks the headers as the merged block list demands; lfree is moved exactly if it was above the lowest free block |
| Heap.Heap.Free | lwip/core/mem.c:616-686 | NULL is ignored, freeing a free block again is rejected, and for a block in use the headers become those of the layout without it, with lfree the lowest free block; nothing else changes anything |
| Heap.Heap.FreeBlock | lwip/core/mem.c:669-680 | the headers become those of the layout without the block, and plug_holes never moves lfree |
| Heap.Heap.Malloc | lwip/core/mem.c:830-976 | sizes of 0 or beyond the heap fail; otherwise the lowest block that fits is marked as used, split if the rest is a block, and its user address returned; it fails exactly if no free block fits, and changes nothing then |
| Heap.Heap.AdjustLfree | lwip/core/mem.c:917-948 | the search loop of malloc moves lfree to the lowest free block, or to the end marker |
| Heap.Heap.Trim | lwip/core/mem.c:698-820 | NULL if the size overflows, is beyond the heap or larger than the block; otherwise the same pointer, and headers and lfree are those of the block list with that block shrunk; the assertion on the next pointer fails exactly for the last block with a surplus that is a block of its own |
| Heap.UserDataUntouched | lwip/core/mem.c:473-510 | operations write headers of the old or the new block list only, never user data of a block in use before and after |
| PbufGraph.NothingDangles | lwip/core/pbuf.c:724-800 | whoever holds a reference reaches allocated pbufs only, to the end of the chain |
| PbufMemory.FreedExactlyUnreferenced | lwip/core/pbuf.c:724-800 | pbuf_free deallocates a pbuf exactly if no owner is left and all its predecessors are deallocated |
| PbufGraph.FreeKeepsCounts | lwip/core/pbuf.c:744-796 | on any sharing graph pbuf_free keeps every count equal to owners plus predecessors |
| PbufGraph.RefKeepsCounts | lwip/core/pbuf.c:828-836 | pbuf_ref keeps the counts |
| PbufGraph.LinkKeepsCounts | lwip/core/pbuf.c:852-875 | linking a chain behind another keeps the counts: the caller's reference becomes the link |
| PbufGraph.CutKeepsCounts | lwip/core/pbuf.c:911-940 | cutting a chain keeps the counts: the link becomes a reference of the caller |
| PbufGraph.GoneWasUnreferenced | lwip/core/pbuf.c:744-796 | a deallocated pbuf had no owner but the one that gave it up, and no predecessor but the one deallocated before |
| PbufMemory.CatBytes | lwip/core/pbuf.c:852-875 | the bytes of the concatenation are those of the parts |
| PbufMemory.CatTotals | lwip/core/pbuf.c:852-875 | all tot_len fields are right modulo 2^16 if those of the parts were |
| PbufMemory.ChainKeepsOwners | lwip/core/pbuf.c:894-901 | pbuf_chain leaves the caller's reference to the tail in place |
| PbufMemory.ChainsDisjoint | lwip/core/pbuf.c:840-875 | chains that do not share their last pbuf share none, so that no cycle can be made |
| Pbuf.Pbufs.AllocPool | lwip/core/pbuf.c:230-273 | a chain of pool elements with the length asked for and exact tot_len fields; it fails exactly if the elements of the pool hold less, and changes nothing then |
| PbufAlloc.FreedAll | lwip/core/pbuf.c:238-246 | giving up a half-built chain restores memory as it was |
| Pbuf.Pbufs.Free | lwip/core/pbuf.c:724-800 | memory after pbuf_free, and the 8-bit number of pbufs deallocated |
| Pbuf.Pbufs.Ref | lwip/core/pbuf.c:828-836 | one more reference; NULL is ignored |
| Pbuf.Pbufs.Cat | lwip/core/pbuf.c:852-875 | every tot_len in front grows by that of the tail, and the last pbuf is linked to it |
| Pbuf.Pbufs.Chain | lwip/core/pbuf.c:894-901 | the concatenation, with the caller still holding the tail |
| Pbuf.Pbufs.Dechain | lwip/core/pbuf.c:911-940 | cuts behind the first pbuf, gives up the reference to the rest, and returns the rest exactly if the 8-bit count of deallocated pbufs is 0 |
| PbufDechain.TailDangles | lwip/core/pbuf.c:911-940 | what is returned is a pointer to a deallocated pbuf exactly if a positive multiple of 256 were deallocated, and otherwise NULL exactly if the rest was deallocated |
| PbufDechain.DechainedBytes | lwip/core/pbuf.c:911-940 | the first link becomes a packet of its own, and the rest, if it survives, another, with right tot_len fields |
| PbufDechain.LongTailDangles | lwip/core/pbuf.c:911-940 | a chain of 257 pbufs for which it is |
| Pbuf.Pbufs.AddHeader | lwip/core/pbuf.c:472-528 | fails exactly for NULL, a wrap-around of tot_len, too little room or foreign memory; otherwise the bytes in front are revealed |
| Pbuf.Pbufs.RemoveHeader | lwip/core/pbuf.c:581-613 | fails exactly for NULL or too short a first link; otherwise its first bytes are hidden |
| PbufResize.AddUndoesRemove | lwip/core/pbuf.c:472-613 | adding a header back restores the pbuf, and what remove hid are its first bytes |
| PbufResize.RemoveUndoesAdd | lwip/core/pbuf.c:472-613 | removing an added header restores the pbuf |
| Pbuf.Pbufs.Realloc | lwip/core/pbuf.c:402-459 | memory after shrinking: links in front lose the difference, the last one is cut, the rest is released |
| PbufResize.ReallocLetsGo | lwip/core/pbuf.c:436-459 | the links that stay are the fewest that hold the bytes; a link behind them is deallocated exactly if nobody owns it and all that pointed to it are gone or are the new last link; other survivors keep link, content and owners, and pbufs outside of the chain are untouched |
| PbufResize.ReallocGivesBack | lwip/core/pbuf.c:437-450 | memory behind the bytes of the new last link is given back exactly if it is from the heap and the link was cut |
| PbufResize.ReallocBytes | lwip/core/pbuf.c:402-459 | pbuf_realloc takes a prefix of the flat bytes, with exact tot_len fields |
| Pbuf.Pbufs.FreeHeader | lwip/core/pbuf.c:670-688 | drops bytes from the front of the flat bytes; links that became empty are deallocated exactly if nobody else refers to them, and nothing else changes |
| Pbuf.Pbufs.Split64k | lwip/core/pbuf.c:1113-1147 | splits behind the longest front whose bytes can be counted in 16 bits |
| PbufResize.FrontFits | lwip/core/pbuf.c:1118-1129 | the front has at most 65535 bytes, and one link more would have more |
| PbufResize.SplitBytes | lwip/core/pbuf.c:1113-1147 | front and rest together hold the bytes of the chain |
| PbufResize.SplitTotals | lwip/core/pbuf.c:1113-1147 | the tot_len fields of both parts are right though the chain's were right modulo 2^16 only |
| PbufResize.CatUndoesSplit | lwip/core/tcp.c:1585-1591 | pbuf_cat restores the chain that was split, but for the FIN flag that the rest got |
| PbufRead.Skip | lwip/core/pbuf.c:1151-1166 | finds the link and the offset in it that hold a byte of the chain |
| PbufRead.TryGetAt | lwip/core/pbuf.c:1388-1399 | the byte at an offset of the flat bytes, -1 behind the end |
| PbufRead.GetAt | lwip/core/pbuf.c:1370-1378 | the same with 0 behind the end |
| PbufRead.CopyPartial | lwip/core/pbuf.c:1026-1057 | a slice of the flat bytes, for chains of any total length; the rest of the buffer stays |
| PbufRead.SliceAt | lwip/core/pbuf.c:1026-1057 | which bytes a slice has |
| PbufRead.MemCmp | lwip/core/pbuf.c:1433-1461 | 0 exactly for equal bytes, else one more than the index of the first difference, 0xFFFF for too short a chain |
| PbufRead.MemFind | lwip/core/pbuf.c:1475-1489 | the first occurrence at or behind the start; the answer for none is wrong exactly for an empty pattern at 0xFFFF |
| Pbuf.Pbufs.PutAt | lwip/core/pbuf.c:1410-1420 | overwrites one byte of the flat bytes, nothing behind the end |
| Pbuf.Pbufs.Take | lwip/core/pbuf.c:1195-1226 | overwrites the first bytes of the chain; errors for NULL and for too short a chain |
| Pbuf.Pbufs.TakeAt | lwip/core/pbuf.c:1239-1262 | overwrites bytes at an offset; succeeds exactly if there is a byte at the offset and all of them fit |
| Pbuf.Pbufs.Copy | lwip/core/pbuf.c:960-1012 | copies exactly the source bytes between chains of non-empty links with any fragmentation, leaves the target's tail alone, and fails exactly for NULL or too small a target |
| PbufWrite.OverwrittenTotals | lwip/core/pbuf.c:960-1262 | operations that write payload keep the tot_len fields right |
| PbufWrite.SpliceAt | lwip/core/pbuf.c:1195-1262 | which bytes are overwritten, and by what |
| PbufWrite.NoQueue | lwip/core/pbuf.c:996-1007 | on a packet with exact lengths the tests for packet queues fail at the last link only, where they do no harm |
| InternetSum.Rfc1071IsByteSum | lwip/core/inet_chksum.c:80-114 | the one's complement sum of section 1 of RFC 1071 is the plain sum with carries added back at any time |
| InternetSum.FoldTwice | lwip/core/inet_chksum.c:157-161 | two folds turn any 32-bit sum into its canonical 16-bit form |
| InternetSum.SwapCanonical | lwip/core/inet_chksum.c:163-166 | swapping the bytes of a sum gives the sum with high and low bytes exchanged, exactly and not only modulo 0xFFFF |
| InternetSum.HostSum | lwip/core/inet_chksum.c:106-113 | summing in the byte order of the machine gives the network's sum in that order (section 2(B) of RFC 1071) |
| InternetSum.ReceiverAccepts | lwip/core/inet_chksum.c:546-558 | a message that holds its checksum sums to 0xFFFF, so that the receiver computes 0 |
| Checksum.ByteWise | lwip/core/inet_chksum.c:80-114 | version 1 returns the RFC 1071 sum in host order, with no overflow of the accumulator up to 128K |
| Checksum.WordWise | lwip/core/inet_chksum.c:133-173 | version 2 returns the same at even and odd addresses, in both byte orders |
| Checksum.DoubleWordWise | lwip/core/inet_chksum.c:189-255 | version 3 returns the same at every alignment; end-around carry in 32 bits loses nothing |
| Checksum.Standard | lwip/core/inet_chksum.c:40-70 | whichever version is selected |
| ChainChecksum.ChksumPbuf | lwip/core/inet_chksum.c:568-588 | for every fragmentation, odd links included, the complement of the RFC 1071 sum of the flat bytes |
| ChainChecksum.SumAddresses | lwip/core/inet_chksum.c:310-327 | the sum of both addresses of a pseudo header |
| ChainChecksum.ChksumPseudo | lwip/core/inet_chksum.c:260-327 | the checksum of pseudo header and flat bytes |
| ChainChecksum.ChksumPseudoPartial | lwip/core/inet_chksum.c:399-473 | the checksum of pseudo header and the first chksum_len bytes |
| ChainChecksum.SumPrefix | lwip/core/inet_chksum.c:399-432 | the loop sums exactly the first chksum_len bytes although it swaps by the length of the whole last link |
| TcpPcbs.AcceptedValid | lwip/core/tcp.c:316-328 | taking a connection from the backlog keeps accepts_pending equal to the number of waiting connections of each listener, and never decrements zero |
| TcpPcbs.LeftBacklog | lwip/core/tcp_in.c:942-945 | a connection is not counted any more when the application hears of it |
| TcpPcbs.DelayedValid | lwip/core/tcp.c:293-305 | adding a connection to the backlog keeps this |
| TcpPcbs.GoneValid | lwip/core/tcp.c:562-624 | removing and deallocating a block from any state keeps the lists and the backlog |
| TcpPcbs.GoneAfterPurge | lwip/core/tcp.c:2126-2168 | purging before changes nothing of that: there is no double decrement |
| TcpPcbs.ListenerGoneValid | lwip/core/tcp.c:250-280 | closing a listener leaves no connection that points to it, and the other listeners' counts as they are |
| TcpPcbs.AllOrphaned | lwip/core/tcp.c:250-280 | the lists that are walked have all blocks that point to the listener |
| TcpPcbs.SynReceivedValid | lwip/core/tcp_in.c:656-700 | a new connection in state SYN_RCVD is counted by its listener |
| TcpPcbs.WaitsValid | lwip/core/tcp_in.c:1003-1007 | entering TIME_WAIT after a purge keeps lists and backlog |
| TcpPcbs.AcceptedOnce | lwip/core/tcp.c:293-328 | a connection is counted at most once and taken back at most once |
| TcpPcbs.DelayedTimeWait | lwip/core/tcp.c:293-305 | the count of waiting connections is right after delaying in any state; once the connection is purged and removed it is one too high exactly if it was delayed in TIME_WAIT |
| TcpPcbs.FinSentBlock | lwip/core/tcp.c:408-460 | ESTABLISHED and SYN_RCVD become FIN_WAIT_1 and CLOSE_WAIT becomes LAST_ACK if the FIN was enqueued; without memory the block is marked for another attempt; otherwise, and for all other blocks, nothing changes |
| TcpPcbs.LaterLater | lwip/core/tcp.c:1205-1226 | whatever steps callbacks take, no surviving block gets an old stamp and the list changes only with the flag set |
| Tcp.Tcp.AcceptBacklog | lwip/core/tcp.c:316-328 | the step of tcp_backlog_accepted |
| Tcp.Tcp.DelayBacklog | lwip/core/tcp.c:293-305 | the step of tcp_backlog_delayed |
| Tcp.Tcp.Purge | lwip/core/tcp.c:2126-2168 | the step of tcp_pcb_purge |
| Tcp.Tcp.Abandon | lwip/core/tcp.c:562-624 | the block is gone from lists and backlog; then the error callback runs, unless the block was in TIME_WAIT |
| Tcp.Tcp.CloseFin | lwip/core/tcp.c:408-460 | states after the FIN was enqueued, has to wait for memory, or failed; lack of memory is no error |
| Tcp.Tcp.Close | lwip/core/tcp.c:347-499 | deallocates at once in CLOSED, in SYN_SENT and with data unread or refused, else sends the FIN; succeeds if that only lacks memory |
| Tcp.Tcp.RemoveListener | lwip/core/tcp.c:250-280 | closing a listening block takes it from all blocks that point to it |
| Tcp.Tcp.ConnectPcb | lwip/core/tcp.c:1066-1182 | the block moves from the bound to the active list |
| Tcp.Tcp.ListenOn | lwip/core/tcp.c:847-921 | the block is replaced by a listening one with an empty backlog |
| Tcp.Tcp.Alloc | lwip/core/tcp.c:1833-1928 | a new block is stamped as dealt with in this tick |
| Tcp.Tcp.Run | lwip/core/tcp.c:562-641 | any script of calls from a callback does what its calls do one after the other |
| TcpCalls.AfterValid | lwip/core/tcp.c:562-641 | whatever a script calls, lists and counts stay right, no block gets an old stamp, and a change of the active list sets the flag |
| TcpCalls.AfterBoth | lwip/core/tcp.c:562-641 | a script is carried out to its end, call by call |
| TcpCalls.AfterOne | lwip/core/tcp.c:562-641 | a script of one call does what the call does |
| TcpCalls.AbandonTells | lwip/core/tcp.c:562-624 | tcp_abandon takes away that block only, and then does what the error callback calls unless the block was in TIME_WAIT |
| TcpCalls.CloseMovesOn | lwip/core/tcp.c:347-460 | after tcp_close a block that stays receives no more, and has moved on, or is marked for another attempt for lack of memory |
| TcpCalls.NewAndBindWork | lwip/core/tcp.c:661-756 | a new block is closed; binding puts it on the list of bound blocks |
| TcpCalls.ConnectWorks | lwip/core/tcp.c:1066-1182 | a closed block that connects is active and in state SYN_SENT |
| TcpCalls.ListenWorks | lwip/core/tcp.c:847-921 | a closed block that listens is replaced by a listening one with nobody waiting |
| TcpCalls.BacklogCallsWork | lwip/core/tcp.c:293-328 | a connection is counted once it was delayed and not once it was accepted |
| TcpCalls.CloseListenerWorks | lwip/core/tcp.c:250-280 | no connection points to a listener that was closed |
| Tcp.Tcp.SynArrives | lwip/core/tcp_in.c:656-700 | a SYN beyond the backlog is dropped, else a connection is made |
| Tcp.Tcp.Established | lwip/core/tcp_in.c:929-957 | the connection leaves the backlog and then the application is asked; it is aborted if the listener is gone or the application refuses, else it is left as the application made it; a deallocated block is used exactly if the callback was careless |
| Tcp.Tcp.EnterTimeWait | lwip/core/tcp_in.c:1003-1007 | purge, then the move to the TIME_WAIT list |
| Tcp.Tcp.SlowTimer | lwip/core/tcp.c:1191-1470 | terminates, and the walk that starts again whenever a callback has changed the list comes to the same, with the same callbacks, as always dealing with the first stale block of the list; then blocks in TIME_WAIT for too long go |
| TcpTicks.SlowTick | lwip/core/tcp.c:1205-1435 | whatever callbacks do and answer, no block is dealt with twice, all were stale and active when their turn came, all active blocks are stamped at the end and the stale ones among them were dealt with; a block that had expired when its turn came is gone |
| Tcp.Tcp.CheckBlock | lwip/core/tcp.c:1228-1376 | the checks of an active block, one after the other, find exactly the reasons to give it up |
| TcpTimers.ExpiryTimes | lwip/core/tcp.c:1311-1376 | a connection that did not retransmit too often expires after 20 seconds in SYN_RCVD and, once closed, in FIN_WAIT_2, after two minutes in LAST_ACK, and after the keep-alive times if that is on |
| TcpTimers.GivenUpAfterTwo | lwip/core/tcp.c:1230-1244 | after two retransmissions, or two probes of a closed window, it is given up in any state |
| TcpTimers.WaitsTwoMinutes | lwip/core/tcp.c:1445-1447 | TIME_WAIT lasts two minutes |
| TcpTimers.ClocksCount | lwip/core/tcp.c:1196-1208 | idle time by a 32-bit clock is right for 2^32 ticks, and an 8-bit stamp is new for 255 ticks |
| TcpPolls.StepPolls | lwip/core/tcp.c:1376-1431 | a block that has not expired is polled exactly if its count, one more than before, has reached the interval, with the count at 0, and tcp_output follows if the answer is ERR_OK and the list as it was; else the count is one more; for an expired block the error callback is called after it is gone, and nothing else |
| TcpPolls.TickPolls | lwip/core/tcp.c:1205-1435 | whatever callbacks do, in a tick each block is polled exactly if its turn came, it had not expired and was due |
| TcpPolls.PolledEveryInterval | lwip/core/tcp.c:1414-1431 | with quiet callbacks a connection is polled in one of every pollinterval ticks, in that to which the count leads |
| TcpTicks.QuietSlowTick | lwip/core/tcp.c:1191-1470 | with quiet callbacks exactly the stale active blocks that had expired before the tick and those in TIME_WAIT for too long are gone |
| TcpTicks.QuietTick | lwip/core/tcp.c:1205-1435 | with quiet callbacks every stale active block is dealt with, as it was before the tick |
| TcpTicks.PolledExists | lwip/core/tcp.c:1414-1431 | after the poll callback the list has changed or the block still exists, so that tcp_output is called for no deallocated block, whatever the answer |
| TcpTicks.EachOnce | lwip/core/tcp.c:1216-1226 | in a tick of either timer no block is dealt with twice, nor one that was stamped before or is new |
| TcpTicks.NoneLeftOut | lwip/core/tcp.c:1205-1226 | at the end of a tick every active block is stamped, and no stale one among them was left out |
| TcpTicks.TurnOf | lwip/core/tcp.c:1205-1226 | when the walk stands at a stale block all before it are stamped, so that it is the first stale one; dealing with it leaves fewer stale ones |
| Tcp.Tcp.Unlink | lwip/core/tcp.c:1370-1412 | unlinking by the predecessor removes exactly the expired block |
| Tcp.Tcp.TimeWaitTimer | lwip/core/tcp.c:1437-1469 | removes exactly the blocks that have been in TIME_WAIT for too long and keeps the order of the others |
| Tcp.Tcp.FastTimer | lwip/core/tcp.c:1478-1522 | terminates, and comes to the same, with the same callbacks, as always dealing with the first stale block of the list; it stops where a deallocated block is used |
| TcpTicks.FastTick | lwip/core/tcp.c:1478-1522 | no block is dealt with twice; a deallocated block is used exactly if one of the callbacks that are due was careless, and otherwise no stale active block is left out |
| TcpTicks.FastSends | lwip/core/tcp.c:1486-1506 | no ACK is delayed any more; a pending FIN is sent, or stays pending for lack of memory, and is given up after another error |
| Tcp.Tcp.ProcessRefused | lwip/core/tcp.c:1538-1600 | the stack, the error and the use of a deallocated block are those of offering the pieces one by one, each taken from the block first and put back if refused |
| TcpTicks.DanglingIffCareless | lwip/core/tcp.c:1538-1600 | over all the callbacks that the number of pieces, the FIN mark and the answers lead to, a deallocated block is used exactly if one of them had the block deallocated and did not answer ERR_ABRT |
| TcpTicks.AllOfferedIs | lwip/core/tcp.c:1538-1600 | lists, counts and stamps are kept; it ends with nothing refused any more if it returns ERR_OK, and with ERR_ABRT if the block is gone |
| TcpTicks.RefusedPutBack | lwip/core/tcp.c:1583-1592 | a piece that is refused again is put back |
| TcpTicks.CallsCarriedOut | lwip/core/tcp.c:1538-1600 | each callback finds the stack as the calls of the one before have left it, with the next piece taken from the block, and the last one leaves what is there in the end |
| TcpTicks.NothingHeldBack | lwip/core/tcp.c:1538-1600 | an application that takes all and leaves the connection alone hears of every piece in turn and then once of the end of the stream |
| Tcp.CloseInCallback | lwip/core/tcp.c:356-377 | a run in which it is used, after tcp_close in the receive callback |
| TcpCalls.ClosedAtOnce | lwip/core/tcp.c:356-399 | tcp_close in a callback deallocates the block exactly in CLOSED, in SYN_SENT and with data unread or refused |
| TcpCalls.ClosingIsCareless | lwip/core/tcp.c:1576-1599 | an application that closes when given data and answers ERR_OK has the deallocated block used exactly then |
| TcpTimers.UnlinkIs | lwip/core/tcp.c:1380-1391 | the walk holds the true predecessor, so that relinking it drops nothing else |
| ReceiveWindow.Comparisons | lwip/include/lwip/priv/tcp_priv.h:109-112 | signed comparison of 32-bit numbers is right while they are less than 2^31 apart |
| ReceiveWindow.Receiver.UpdateAnnWnd | lwip/core/tcp.c:929-956 | what will be announced: the buffer's edge if that opens by at least min(TCP_WND/2, mss), else the old edge, or rcv_nxt if the peer has sent more |
| ReceiveWindow.Receiver.Arrive | lwip/core/tcp_in.c:1546-1554 | data that fit keep the invariant: the history of announced edges is monotone, within the buffer, and opens far enough |
| ReceiveWindow.Receiver.Recved | lwip/core/tcp.c:967-1003 | the window grows up to its maximum, and a segment is asked for exactly if the edge opens by the threshold |
| ReceiveWindow.Receiver.CorrectForFin | lwip/core/tcp.c:1566-1572 | the sequence number of the FIN is given back |
| ReceiveWindow.Receiver.Emit | lwip/core/tcp_out.c:1482-1491 | the new edge never is left of the old one nor beyond the buffer, and stays, coincides with rcv_nxt, or opens by the least step |
| ReceiveWindow.HistoryGrows | lwip/core/tcp.c:929-956 | this extends over whole runs |
| ReceiveWindow.EdgeOnWireIsClose | lwip/core/tcp_out.c:1850-1868 | the edge in a scaled header is less than 2^scale bytes below the remembered one, and equal without scaling |
| ReceiveWindow.LeastSafeStep | lwip/core/tcp_out.c:1850-1868 | from one segment to the next a step of 2^scale - 1 bytes, and no smaller one, keeps the edge on the wire from moving left whatever arrived |
| ReceiveWindow.UnscaledNeverLeft | lwip/core/tcp_out.c:1850-1868 | without scaling it never moves left in any run |
| ReceiveWindow.ScaledEdgeMovesLeft | lwip/core/tcp_out.c:1850-1868 | for every scale from 1 on a run of the receiver in which the edge on the wire moves left |
| RefusedData.Offer.Process | lwip/core/tcp.c:1538-1600 | the application is given the pieces up to and with the first it does not take; refused, the rest is held as it was; aborted, ERR_ABRT; all taken, nothing is held and the end of the stream is told once, with its sequence number given back |
| RefusedData.HeldPieces | lwip/core/tcp.c:1546-1552 | every chain that is held is made up by its pieces, also one whose tot_len fields are right modulo 2^16 only |
| RefusedData.PiecesMakeUp | lwip/core/tcp.c:1546-1552 | the pieces, each of at most 65535 bytes, make up the bytes of the chain |
| RefusedData.PiecesFrame | lwip/core/tcp.c:1546-1592 | the pieces still to come do not change when one is split off, deallocated or put back |
| RefusedData.Offer.OfferPiece | lwip/core/tcp.c:1546-1592 | one piece is split off; refused again, the held chain is what it was |
| RefusedData.HeldAgain | lwip/core/tcp.c:1583-1592 | chain, bytes, tot_len fields and FIN mark survive split and refusal |
| NetconnSteps.SignalledExactlyOnce | lwip/api/api_msg.c:1060-1106 | after every run of calls and callbacks current_msg is set exactly in WRITE and CLOSE, each thread that slept and whose operation is over was signalled once, nobody else ever, and who still sleeps can be woken |
| NetconnSteps.BytesGiven | lwip/api/api_msg.c:1680-1759 | after every run the bytes given to successful tcp_write calls are the first offset bytes of the caller's data; a blocking write ends with ERR_OK only after all of them |
| NetconnSteps.StepValid | lwip/api/api_msg.c:356-505 | every call and callback keeps this, and takes no signal back |
| NetconnSteps.WriteAnswers | lwip/api/api_msg.c:1816-1862 | refused after an error, while another operation runs and without a block, each with its error; else the thread sleeps or the write is over for one of the reasons there are |
| NetconnSteps.MoreReady | lwip/api/api_msg.c:1643-1807 | either the write goes on, or it is over for one of the reasons there are, with its thread signalled exactly if it slept |
| NetconnSteps.TryReady | lwip/api/api_msg.c:923-1107 | a close goes on exactly for lack of memory with polls left; else it is over with the result due, and the block is kept exactly if one side stays open |
| NetconnSteps.CloseAnswers | lwip/api/api_msg.c:1937-2008 | a running write is aborted and its thread signalled exactly if the write side is closed; the error of the message in each case, left as it was exactly while another close runs |
| NetconnSteps.DeleteAnswers | lwip/api/api_msg.c:1116-1210 | a running write is aborted; the block is gone and the answer is ERR_OK, or the thread sleeps |
| NetconnSteps.SentAnswers | lwip/api/api_msg.c:397-422 | goes on with a running write or close, and wakes at most its thread, exactly if it is over |
| NetconnSteps.PollAnswers | lwip/api/api_msg.c:356-388 | the same, with one poll less to wait for a close |
| NetconnState.TookConsistent | lwip/api/api_msg.c:1725-1738 | each successful tcp_write extends the bytes given by the next ones of the data |
| Netconn.Netconn.WriteLoop | lwip/api/api_msg.c:1680-1739 | the inner loop terminates; the bytes it takes and its error are those of the recursive function over the answers of tcp_sndbuf and tcp_write |
| Netconn.Netconn.WriteMore | lwip/api/api_msg.c:1643-1807 | the step of MoreReady |
| Netconn.Netconn.CloseInternal | lwip/api/api_msg.c:923-1107 | the step of TryReady |
| NetconnWrites.MoreMoves | lwip/api/api_msg.c:1644-1795 | full pieces of 65535 bytes are passed on, then one more piece for as much as is left or there is room for; a failing tcp_write takes nothing; the write goes on exactly if it may block, is not done and met no error but lack of memory, and otherwise ends with the error there is |
| NetconnWrites.AllAtOnce | lwip/api/api_msg.c:1680-1730 | with room for all that is left, or for a whole piece each time, and no error, a write is over at once with ERR_OK and all its bytes were given |
| NetconnWrites.GoesOnForWantOfRoom | lwip/api/api_msg.c:1680-1730 | a write that goes on has used up all the room of its last tcp_write, or there was no memory |
| NetconnWrites.GetsOn | lwip/api/api_msg.c:1680-1730 | with some room and a tcp_write that succeeds it gets on |
| NetconnWrites.WriteCompletes | lwip/api/api_msg.c:1632-1640 | a write that sleeps is over, with all bytes given and its thread signalled, after at most as many callbacks that find room as it has bytes left |
| NetconnSteps.FullCloseIs | lwip/api/api_msg.c:940-957 | a close is a full one exactly if it leaves neither direction open |
| Netconn.Netconn.Write | lwip/api/api_msg.c:1816-1862 | the step of WriteAnswers; the caller sleeps exactly if its message stays current; ERR_INPROGRESS, ERR_CONN and pending errors at once |
| Netconn.Netconn.Close | lwip/api/api_msg.c:1937-2008 | the step of CloseAnswers; the error of the message in each case |
| Netconn.Netconn.Delete | lwip/api/api_msg.c:1116-1210 | the step of DeleteAnswers, which is not called during a close; the caller sleeps exactly for lack of memory with polls left |
| Netconn.Netconn.PollTcp | lwip/api/api_msg.c:356-388 | the step of PollAnswers |
| Netconn.Netconn.SentTcp | lwip/api/api_msg.c:397-422 | the step of SentAnswers |
| Netconn.Netconn.ErrTcp | lwip/api/api_msg.c:431-505 | the step of ErrAnswers |
| NetconnSteps.ErrAnswers | lwip/api/api_msg.c:431-505 | the running operation is over, a close with success and a write with the error, and its thread is signalled |
| TimeoutList.TimeCompares | lwip/core/timeouts.c:70-73 | 32-bit comparison is that of unbounded time in a window shorter than 2^31 ms |
| TimeoutList.InsertIs | lwip/core/timeouts.c:178-221 | a timer comes behind all that are not due later: ties are first in, first out |
| TimeoutList.InsertSorted | lwip/core/timeouts.c:178-221 | the list stays sorted and loses no timer |
| Timeouts.Timeouts.TimeoutAbs | lwip/core/timeouts.c:178-221 | insertion by 32-bit times is insertion by unbounded time |
| Timeouts.Timeouts.Start | lwip/core/timeouts.c:286-306 | the timer is due msecs after now |
| Timeouts.Timeouts.Untimeout | lwip/core/timeouts.c:316-341 | removes the first timer with this handler and no other |
| Timeouts.Timeouts.RearmCyclic | lwip/core/timeouts.c:227-261 | due one interval after the last due time, or after now if that is past |
| Timeouts.Timeouts.Fire | lwip/core/timeouts.c:378-392 | the handler is called, and the list becomes what its script, the re-arming of a cyclic timer or the restart of the TCP timer make of it |
| Timeouts.Timeouts.CheckTimeouts | lwip/core/timeouts.c:351-396 | terminates though timers re-arm themselves; the handlers called and the list that is left are those of firing the first timer as long as it is due at the captured now |
| TimerTimes.CheckFires | lwip/core/timeouts.c:351-396 | timers run one after the other, each when it is the first and due, with the effect on the list that their scripts have, until none is due |
| TimerTimes.FiringRan | lwip/core/timeouts.c:227-261 | the script takes effect; then a cyclic timer is inserted one interval after it was due, or after the clock if that is past, and the TCP timer 250 ms after the clock if it is needed |
| TimerTimes.WorkEffects | lwip/core/timeouts.c:286-341 | each sys_timeout of a script inserts a timer due msecs after a reading of the clock behind all not later, and each sys_untimeout takes the first timer with its handler |
| TimerTimes.ArmedHasOrigin | lwip/core/timeouts.c:227-306 | whatever was armed was armed by a timer that ran, for the time its script or its interval says from a reading of the clock in this check |
| TimerTimes.CyclicRearmed | lwip/core/timeouts.c:243-259 | each cyclic timer that ran was armed again for one interval after it was due, or after the clock if that is past |
| TimerTimes.NoDrift | lwip/core/timeouts.c:243-259 | as long as checks are on time a cyclic timer runs at its first due time plus whole intervals |
| TimerRun.FiringDoes | lwip/core/timeouts.c:227-261 | a timer that fires leaves less to be run at this time than before; only what its script cancels goes, and a cyclic timer is in the list again |
| TimerRun.NoneDueLeft | lwip/core/timeouts.c:351-396 | no timer due at the captured now is left |
| TimerRun.FiredInOrder | lwip/core/timeouts.c:351-396 | timers run in the order of their times, though handlers arm others meanwhile |
| TimerRun.Balance | lwip/core/timeouts.c:351-396 | every timer that was in the list or was armed has run, was cancelled, or is in the list |
| TimerRun.CancelledByWork | lwip/core/timeouts.c:316-341 | only timers whose handler is cancelled by the script of a timer that ran are cancelled |
| TimerRun.DueRuns | lwip/core/timeouts.c:351-396 | every timer that is due runs, unless a timer that runs cancels its handler |
| TimerRun.NotDueStays | lwip/core/timeouts.c:351-396 | every timer that is not due stays, unless a timer that runs cancels its handler |
| TimerRun.CyclicGoesOn | lwip/core/timeouts.c:227-261 | a cyclic timer is still in the list afterwards, unless a timer that runs cancels it |
| Timeouts.Timeouts.Restart | lwip/core/timeouts.c:403-420 | the first timer is due now and all gaps are kept |
| Timeouts.Timeouts.Sleeptime | lwip/core/timeouts.c:425-443 | the time to the first timer, 0 if that is past |
| MempSanity.Sanity | lwip/core/memp.c:100-116 | terminates on any graph of next links and is true exactly if the list has no cycle |
| MempSanity.Meeting | lwip/core/memp.c:107-112 | on a list with a cycle the two pointers meet |
| MempSanity.NoMeeting | lwip/core/memp.c:107-112 | on a list that ends they never do |
| Memp.PushEnds | lwip/core/memp.c:385-389 | putting an element back makes a cycle exactly if it is free already |
| Memp.Pool.constructor | lwip/core/memp.c:174-215 | all elements are free, the last one first |
| Memp.Pool.Malloc | lwip/core/memp.c:243-300 | takes the first free element; NULL exactly if there is none |
| Memp.Pool.Free | lwip/core/memp.c:358-394 | the element is free and the sanity check holds |
| Memp.Pool.WriteElement | lwip/core/memp.c:259-300 | an owner may write to all of an element, also where its link was, and the free list stays |
| Memp.Pool.NoneLost | lwip/core/memp.c:174-394 | over every run free and used elements make up the pool, and no free one is listed twice |
| DnsName.CompareFindsEncoded | lwip/core/dns.c:650-698 | reading an encoded name with the same letters in any case returns the offset behind its terminator |
| DnsName.SkipFindsEncoded | lwip/core/dns.c:707-739 | dns_skip_name returns the same offset |
| DnsName.PointerEndsName | lwip/core/dns.c:707-739 | a name that ends with a compression pointer is skipped to the end of the pointer |
| DnsName.PointerNotAccepted | lwip/core/dns.c:650-698 | and is not accepted by dns_compare_name |
| DnsName.TruncatedName | lwip/core/dns.c:650-739 | a name in which the packet ends is an error to both |
| DnsName.CompareAcceptsExactly | lwip/core/dns.c:669-691 | what is accepted: labels that stand in the memory of the query one byte apart |
| DnsName.AcceptsLessThanTheName | lwip/core/dns.c:669-691 | the answer for "a" is accepted for a query for "a.b" |
| DnsName.AcceptsOtherDots | lwip/core/dns.c:669-691 | the answer for "a.c" is accepted for a query for "abc" |
| DnsName.AcceptedSameShape | lwip/core/dns.c:669-691 | a name is the one asked for exactly if it is accepted and has as many labels of the same lengths |
| DnsName.RightExactly | lwip/core/dns.c:669-691 | the answer is right exactly if the labels agree in number and lengths or the name is rejected |
| DnsName.EncodedLength | lwip/core/dns.c:777-778 | the encoded name takes two bytes more than the string has characters, as the packet is allocated |
| Dns.CompareName | lwip/core/dns.c:650-698 | on chains of any fragmentation, the function of the flat bytes |
| Dns.SkipName | lwip/core/dns.c:707-739 | on chains of any fragmentation, the function of the flat bytes |
| Dns.EncodeName | lwip/core/dns.c:787-809 | behind the header stands the encoded name of section 3.1 of RFC 1035, and nothing else is changed |
| Dns.WrittenNameIsFound | lwip/core/dns.c:650-809 | what dns_send has written is found by dns_compare_name and skipped by dns_skip_name, at the same offset |
| PbufQueue.Queue.Push | native/queues.c:3-23 | the ring holds the newest 256 packets in order, and exactly the oldest one is deallocated when it is full |
| PbufQueue.Queue.Append | native/queues.c:3-23 | the same for several packets |
| PbufQueue.Queue.Pop | native/queues.c:34-52 | takes the oldest packets, as many as asked for or all |
| PbufQueue.Queue.Size | native/queues.c:25-32 | the number of packets |
| PbufQueue.PushFull | native/queues.c:9-19 | overwriting the slot of the oldest packet moves the window by one |
| Tunnel.PushRecords | native/link.c:131-153 | appending decides about the oldest packet only, and only when the ring is full |
| Tunnel.OneFate | native/queues.c:3-52 | every packet appended was popped, was dropped, or is in the ring |
| Tunnel.NeverBoth | native/queues.c:3-52 | no packet is both popped and dropped, nor popped twice |
| Tunnel.Tunnel.Send | native/link.c:143-152 | tx_polling is set exactly while one poll callback is pending, of which there is at most one; none is pending afterwards exactly if there was none and tcpip_try_callback failed |
| PbufHeld.FreeSpares | lwip/core/pbuf.c:724-800 | pbuf_free by one owner leaves the chain of another as it is, with its references |
| PbufHeld.ChainWithoutHeader | lwip/core/pbuf.c:581-613 | removing a header from a chain drops the front of its bytes, with exact tot_len fields |
| Channel.PushRx | native/queues.c:3-23 | appending keeps every packet in the rings allocated, owned and with the bytes it was queued with; the oldest one may be given up |
| Channel.PushTx | native/queues.c:3-23 | the same towards the stack, whose packets are nobody else's |
| Channel.PopRx | native/queues.c:34-52 | a reader takes the oldest packet with its reference and with what it was queued with |
| Channel.PopTx | native/queues.c:34-52 | the callback takes the oldest packets with what they were queued with |
| Channel.PassOn | native/link.c:40-42 | what is passed on is what was queued, in that order |
| Channel.FreeSpare | native/queues.c:7-9 | deallocating a dropped or consumed packet does no harm to those in the rings |
| Channel.Channel.PutRx | native/queues.c:3-23 | this holds for the class; exactly the oldest packet of a full ring is deallocated |
| Channel.Channel.PutTx | native/link.c:143-152 | the same with the poll protocol |
| Channel.Channel.Elsewhere | native/queues.c:3-52 | and after any change of memory by others that spares these packets |
| Link.Link.IfOutput | native/link.c:45-53 | a packet of the stack is queued with a reference of its own, and dropped later at most |
| Link.Link.Read | native/link.c:98-129 | the oldest packet's bytes as they were queued, 0 if the buffer is too small, and the packet is given up; or it waits, or the link is closed |
| Link.Link.Write | native/link.c:131-153 | the data are queued as they are, NULL exactly if there is no memory; after closing nothing is kept |
| Link.Link.InjectOne | native/link.c:40-42 | the stack gets the packets in the order of writing, carrying what was written, or gives them up |
| Tunnel.Tunnel.PollTx | native/link.c:26-43 | the flag is cleared and the oldest 32 packets are taken in order; some are left exactly if there were more |
| Tunnel.Tunnel.Deliver | native/link.c:40-42 | packets passed to the stack are those taken, in order: a subsequence of those written |
| Tunnel.Tunnel.Receive | native/link.c:45-53 | the same ring towards the readers |
| Tunnel.Tunnel.TryRead | native/link.c:98-119 | the oldest packet, or wait, or closed with nothing left to read |
| UdpFraming.UnframeFrame | native/udp.h:9-14 | the 12 bytes of metadata can be read back |
| UdpFraming.FrameLayout | native/udp.h:9-14 | both addresses come first and then both ports, in the byte order of the machine |
| UdpFraming.OnReceived | native/udp.c:26-62 | the queued chain carries metadata and datagram with exact tot_len fields, and nothing else changes; without memory nothing does |
| UdpFraming.Recv | native/udp.c:166-199 | metadata and payload arrive as they were queued, whatever the links; a datagram too long for the buffer is dropped |
| UdpFraming.SendTo | native/udp.c:202-222 | what is queued carries metadata and payload, cut to 16 bits of length; refused exactly if there is no memory or the header does not fit, with nothing left allocated |
| UdpFraming.PollOne | native/udp.c:74-104 | the stack sends the caller's payload with the caller's addresses, and the packet is given up |
| UdpConn.UdpConn.OnReceived | native/udp.c:26-62 | the parcel joins those queued for the readers, and every packet in the rings still carries its own |
| UdpConn.UdpConn.SendTo | native/udp.c:202-231 | the parcel joins those queued for the stack; -1 exactly if closed before, without memory, or too long for its header |
| UdpConn.UdpConn.Recv | native/udp.c:166-199 | a reader gets the next parcel in the order of queueing, with the metadata and bytes that were queued, whatever happened in between, and the packet is given up; one too long for the buffer is lost |
| UdpConn.UdpConn.PollOne | native/udp.c:74-104 | the stack gets the next parcel taken, unless the connection is closed: the packet without its metadata, which is then given up |
| UdpConn.PassOnConsistent | native/udp.c:53-105 | the parcels sent are those taken from the ring, in order, up to the time of closing |
| UdpConn.PopRxConsistent | native/udp.c:166-185 | the parcel that a reader takes is the oldest one that was not dropped |

## Left out

- Heap.Heap.Free: a pointer to no block whose bytes look like a linked header all the same, which the checks of the code cannot tell either.
- Heap.Heap.Trim: the pointer must be that of a block in use; the code returns pointers outside of the heap unchanged.
- Pbuf.Pbufs.Realloc: `newLen` is compared with the true length, which must be below 64K as `tot_len` says it is.
- Pbuf.Pbufs.CutOff: the link is cleared before its target is freed, the C code does it right after.
- Pbuf.Pbufs.Copy: packets with empty links are not covered; the code calls a link before empty ones a packet queue.
- Tcp.Tcp.Close: deallocation from within `tcp_input` (`tcp_trigger_input_pcb_close`) is not modelled.
- Tcp.Tcp.Alloc: the connections `tcp_alloc` kills when the pool is empty are calls of Abandon like any other.
- Tcp.Tcp.SlowTimer: retransmission and persist timers are steps of the sender, whose effect on `nrtx`, `persist_backoff` and `persist_probe` is a parameter; `unsigned long` is taken to have 64 bits, with 32 the sum of `keep_idle` and the keep-alive duration could wrap around.
- Tcp.Tcp.ProcessRefused: what happens after the use of a deallocated block is not said; data are numbers of pieces here; their bytes are the subject of RefusedData.
- ReceiveWindow.Receiver.Recved: sequence numbers must not run 2^31 ahead of the last segment sent.
- Timeouts.Timeouts.TimeoutAbs: the pool of timers is taken to hold one more; the code drops a timer that it has no memory for.
- NetconnSteps.Possible: that `tcp_close` fails for lack of memory at most is a condition; it returns what `tcp_send_fin` does (`lwip/core/tcp_out.c:1001-1090`), and hides even that (`Tcp.Tcp.Close`).
- Netconn.Netconn.WriteLoop: writes of several vectors are not modelled, nor is listening or connecting.
- Dns.EncodeName: host names with empty labels or labels of more than 63 bytes are not covered.
- ChainChecksum.ChksumPseudo: the order of the words of an IPv6 pseudo header differs, which a sum does not notice.
- UdpFraming.OnReceived: a datagram of IPv4 has at most 65507 bytes, so that its length does not wrap around with the metadata.
- Channel.Channel.PutRx: the dropped packet is deallocated right after it is overwritten instead of right before.
- Channel.Channel.Elsewhere: others who have references to a queued packet do not write to it, as the stack does not while `ref` is above 1.
- Heap protection across contexts (`LWIP_ALLOW_MEM_FREE_FROM_OTHER_CONTEXT`), overflow guards, statistics and debug output.
- Custom pbufs and their free hooks, `pbuf_clone`, `pbuf_coalesce` and `pbuf_get_contiguous`, which only call what is modelled.
- Threads, mailboxes and semaphores: a critical section is one step, `tcpip_try_callback` succeeds or fails, and a signal is counted.
- The assertions on `conn->state` behind the waits of `api_msg.c`: they suppose that no other thread starts an operation before the woken one has the lock.
- Segment contents, sequence-number input processing and `tcp_write` itself; SO_LINGER and send timeouts, which are switched off.
- The Go wrappers, `native/init.c`, `native/interface.c`, `native/utils.c` and `native/tcp.c`: plumbing.
