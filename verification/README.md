# Protocols and data structures of the coursework collection, verified

This project models five components of the repository in Dafny and proves what they
guarantee. Where a promise turns out not to hold, it gives a run or an input that shows
it and proves the exact condition under which it does hold.

* **OSMP message passing** (`OSMP/lib/OSMPlib.c`, `OSMP/OSMPRun/OSMPRun.c`).
  `OsmpProtocol` is a step system: one step for every semaphore operation, every critical
  section and every read of a slot in `OSMP_Send` and `OSMP_Recv`, any number of processes
  and sending threads, every interleaving. `OsmpInvariant` proves its invariant,
  `OsmpTheorems` and `OsmpDelivery` say what it means for whole runs, `OsmpCopy` what ends
  up in a receiver's buffer, `OsmpAlone` what uninterrupted calls do, `OsmpRace` which
  programs have bad runs, `OsmpCapacity` what failed receives cost. `OsmpShared` is the same memory as classes whose
  methods are the critical sections. `Barrier` treats `OSMP_Barrier`, and `Broadcast`,
  `BroadcastReturns` and `BroadcastSpurious` treat `OSMP_Bcast`: what it delivers, when
  everybody returns from it, and what spurious wake-ups do to it.
* **TFTP** (`tftp_server.c`, `client.c`, RFC 1350). `TftpRead` and `TftpWrite` put a
  server and a client on a network that keeps every packet ever sent and may deliver any
  of them at any time, any number of times, or never. `TftpReadAnswers` and
  `TftpWriteAnswers` say what is sent in answer to every packet and timer event, and which
  sessions survive the loss of everything on the way. `TftpFraming` is what the client's
  packets do to the bytes of a block, and `TftpEndpoints` has the handlers as methods on the
  two session records.
* **The cblib event loop** (`cblib.c`). `Timers` is the doubly linked timer list,
  `FdTable` the callback table with `read_fds` and `maxfd` and the loop over it, whose
  callbacks may change it, `EventLoop` runs `handle_event` on them, and `Agenda` is what a
  run of it does to the timers, on values.
* **Base64** (`base64.c`, RFC 4648). `Base64` is the encoding and its inverse,
  `Base64Buffers` the loops over buffers.
* **The scene graph** (`scenegraph.ts`, `matrixstack.ts`). `SceneWalk` says what a frame
  uploads, `SceneOrder` in which order, `SceneMoves` which nodes it shows with more than one
  transform, and `SceneGraph` is the traversal with its mutable matrices and its stack.

`Basics` and `Folds` hold what several of them use. `dafny verify dfyconfig.toml` checks
everything.

## What the proofs found

* `OSMP_Recv` puts its slot back on the free list (lines 134-135) before it reads it (lines
  138-143). A receive finds nothing but its own message exactly if no sender fills the slot
  in between (`DeliveryIsExact`); `ReceiveCanDeliverTheWrongMessage` is a run in which it
  returns another one. The length is checked in line 138 and read again in line 141: line
  143 copies more than the caller's buffer holds exactly if the last fill between the two is
  a longer message (`OverrunExactly`, and `ReceiveCanOverrunItsBuffer` is such a run). Both
  can happen exactly in programs with at least two processes and a sending thread
  (`RacesExactly`).
* A receive whose buffer is too small returns at line 147 without posting `free_slots` and
  `proc_free`. Its message is lost, and so are a place of the ring and a slot of the pool.
  When nothing is under way, a process can be sent another message exactly if fewer than 16
  of its own receives and fewer than 255 of all receives have failed
  (`SendCompletesExactly`). A negative count makes the comparison in line 138 unsigned and
  accepts every message, unless the datatype has value zero.
* `OSMP_Barrier` lets nobody leave early as long as there are no spurious wake-ups. It can
  go on releasing processes exactly as long as nobody enters it while a woken process has
  not yet left (`WorksExactly`); after that everybody who enters it waits for good
  (`NobodyIsReleasedAgain`). `OSMP_Bcast` consists of two barriers in a row, so every program
  with a broadcast and at least two processes can hang (`HangsExactly`, and step by step
  `BroadcastCanDeadlock`).
* The wait of `OSMP_Barrier` is not in a loop. A spurious wake-up lets a process leave early
  exactly if not everybody is waiting at that moment (`SpuriousWakeUpExactly`), and then a
  broadcast can deliver a wrong buffer exactly if there are two processes and anything to
  send (`GoesWrongExactly`).
* The TFTP server resends `ACK c->block` on a timeout (line 156), and `c->block` is the
  block it is still waiting for. The client takes this as an acknowledgement. So a client
  can finish over an incomplete file exactly for non-empty files under 65534 * 512 + 500
  bytes (`LossyFinishExactly`), and the server can tear a session down over one exactly for
  files from 500 to under 65535 * 512 + 500 bytes (`LossyTeardownExactly`). 500 is where
  `sendData(session) < 516` (client.c line 365) draws the line, because `sendData` returns
  16 and not 4 more than it read.
* A read server that an acknowledgement tears down leaves a client with the whole file
  (`TftpRead.TeardownMeansComplete`). But the client does not acknowledge an empty block
  (client.c lines 312-321), so it never acknowledges the final block of a file whose size is
  a multiple of 512 (`FinalBlockIsAcknowledgedExactly`).
* Resending saves a session in which everything on the way has been lost exactly if, in a
  read, the server can still send the block that the client waits for or the client an
  acknowledgement that does not end the server's session, and, in a write, the client can
  still send its block and the server lacks no earlier one
  (`TftpReadAnswers.RecoversExactly`, `TftpWriteAnswers.RecoversExactly`).
* Block numbers have 16 bits. A read completes exactly for files under 65535 * 512 bytes, a
  write for files under 65534 * 512 + 500 bytes; a write keeps every block once and in order
  exactly for files under 65535 * 512 + 500 bytes.
* `sendData` sends 12 zeros behind every block, and `memccpy` with `sizeof(char)` stops at a
  byte of value 1. A server that has written all blocks never has the client's file: zeros
  follow it, and in front of them it stands unharmed exactly if in every block nothing but
  zeros follows a byte of value 1 (`NeverTheSameFile`). Line 285 of client.c copies these
  datagrams into a buffer of 516 bytes, which is large enough on every run exactly for files
  of at most 500 bytes (`InsideBufferExactly`).
* When `select` fails, `handle_event` goes into its `else` branch and calls every
  registered callback.
* `start_timer` recognises a running timer by its times or its links. It fails to exactly
  for a timer that is alone in the list and was started at 0:0 with a timeout of zero, and
  then it makes the list a ring (`UnknownExactly`, `StartTimer`).
* The scene graph pushes the root's transform in its constructor and multiplies with it
  again in `drawTraversal`: the first upload of every frame is the root's initial transform
  times its present one (`RootIsAppliedTwice`).
* A frame draws each node once for every path to it. Every node has been drawn equally often
  at all its visits of a frame exactly if the scene is a tree (`TreeFrames`). Some node is
  uploaded with two transforms in one frame exactly if it is reached on two paths and its
  draw changes the transform that it has when the frame begins (`MovesExactly`). The
  repository's own scene is no tree, because several planets share a material (`planet.ts`
  line 17, `index.ts` lines 124-150), but the draw of a material changes no transform
  (`material.ts` lines 37-45).

## Model

| member | source | states |
|---|---|---|
| OsmpMemory.WalkFollowsLinks | OSMP/OSMPRun/OSMPRun.c:152-161 | a walk of the free list is its head followed by the links, index by index |
| OsmpMemory.WalkFrame | OSMP/lib/OSMPlib.c:134-135 | writing a link outside the walk does not change the walk |
| OsmpMemory.PopWalk | OSMP/lib/OSMPlib.c:91-93 | popping takes the first slot off the walk and leaves the rest |
| OsmpMemory.PushWalk | OSMP/lib/OSMPlib.c:134-135 | pushing a slot that is not on the walk puts it in front |
| OsmpMemory.InitialWalk | OSMP/OSMPRun/OSMPRun.c:152-161 | the initial list, although a cycle, is walked through all 255 slots in order |
| OsmpMemory.PutHolds | OSMP/lib/OSMPlib.c:108-111 | with the lazily wrapped write index, a put into a ring that is not full appends to its unread slots and overwrites none |
| OsmpMemory.TakeHolds | OSMP/lib/OSMPlib.c:125-128 | with the lazily wrapped read index, a take yields the oldest unread slot and leaves the others |
| OsmpProtocol.LengthCheck | OSMP/lib/OSMPlib.c:80-83 | the unsigned comparison rejects exactly the lengths that are negative or over the maximum |
| OsmpProtocol.RefusedExactly | OSMP/lib/OSMPlib.c:70-86 | a send is refused, and changes nothing at all, if and only if its receiver does not exist or is the caller, or its length is negative or over 1024; otherwise it goes on with exactly its message |
| OsmpInvariant.InitHolds | OSMP/OSMPRun/OSMPRun.c:113-161 | the initialised memory satisfies the invariant, for any number of processes and threads |
| OsmpInvariant.KeepSend | OSMP/lib/OSMPlib.c:88-113 | every step of a send keeps the invariant |
| OsmpInvariant.KeepRecv | OSMP/lib/OSMPlib.c:121-152 | every step of a receive keeps the invariant |
| OsmpInvariant.KeepStep | OSMP/lib/OSMPlib.c:70-155 | every step of any thread keeps shape, partition, semaphore accounts and contents |
| OsmpTheorems.RunKeepsInv | OSMP/lib/OSMPlib.c:70-155 | the invariant holds in every state of every run |
| OsmpTheorems.SlotsArePartitioned | OSMP/lib/OSMPlib.c:88-136 | in every reachable state each pool slot has exactly one owner: the free list, a sender, a ring or a receiver; following the links for the number of free slots meets no slot twice |
| OsmpTheorems.SemaphoresAccountForEverything | OSMP/lib/OSMPlib.c:88-152 | free list length and ring places equal the semaphores plus what is in flight plus failed receives; no pop from an empty list, no put into a full ring |
| OsmpTheorems.CriticalSectionsExclude | OSMP/lib/OSMPlib.c:90-136 | two threads are never in the same critical section, and shm_mutex and proc_mutex are never held together |
| OsmpTheorems.WaitingStateCounts | OSMP/lib/OSMPlib.c:88-152 | when everybody is idle or waits on a counting semaphore and no receive failed, free_slots and the unread messages add up to 255, and proc_full counts the unread messages |
| OsmpTheorems.NoCapacityDeadlock | OSMP/lib/OSMPlib.c:88-152 | in such a state a blocked sender implies that another sender can go on or that some process has an unread message; one blocked on free_slots implies the latter |
| OsmpTheorems.FailedReceivesCloseTheRing | OSMP/lib/OSMPlib.c:145-148 | every failed receive costs a place of the ring for good; after sixteen the process never gets a message again (OsmpCapacity.SendCompletesExactly has the exact condition) |
| OsmpCapacity.DeadPool | OSMP/lib/OSMPlib.c:145-152 | 255 failed receives of all processes leave nothing of the pool: no grant, no slot under way, no unread message |
| OsmpCapacity.StarvedPath | OSMP/lib/OSMPlib.c:145-152 | after sixteen failed receives of a process, or 255 of all, that process is never sent a message again, whatever happens |
| OsmpCapacity.SendCompletesExactly | OSMP/lib/OSMPlib.c:70-155 | in every reachable state with nothing under way, a process can be sent a message if and only if fewer than 16 of its own and fewer than 255 of all receives have failed; then any valid call of OSMP_Send completes and enqueues just its message |
| OsmpDelivery.DeliveryIsExact | OSMP/lib/OSMPlib.c:134-143 | the four reads of a receive all find the message it dequeued if and only if nobody fills its slot between push and last read; then an accepted receive returns that message |
| OsmpDelivery.RunIsFaithful | OSMP/lib/OSMPlib.c:125-148 | if no slot is filled in that window, every logged receive found what was enqueued at its place, and returned it if and only if it fits into the buffer |
| OsmpDelivery.DeliveredInOrder | OSMP/lib/OSMPlib.c:98-148 | if no slot is filled between its push and its last read: receives take the messages in enqueue order, none skipped or doubled, per sending thread in send order; a receive returns its message, with source, length and payload, if and only if it fits into its buffer and loses it otherwise; `failed` counts the lost ones |
| OsmpDelivery.RingIsFifo | OSMP/lib/OSMPlib.c:98-128 | the unread cells of a ring hold, in order, the newest enqueued messages, so the ring is a queue |
| OsmpCopy.SlotSince | OSMP/lib/OSMPlib.c:98-102 | between two moments a slot keeps its message if nobody fills it, and otherwise holds what the last fill has written, which is newer |
| OsmpCopy.OverrunExactly | OSMP/lib/OSMPlib.c:138-143 | for every completed copy: the length that is copied is of the message whose length was checked if and only if nobody fills the slot between the two reads, and it exceeds the capacity if and only if the last fill between them is a longer message |
| OsmpCopy.ReturnsExactly | OSMP/lib/OSMPlib.c:138-143 | source, length and bytes that a receive returns are each those that the slot held when they were read: the dequeued message's, or those of the last fill before that read |
| OsmpAlone.SendAlone | OSMP/lib/OSMPlib.c:70-116 | an uninterrupted send ends in exactly the state with the message at the end of the receiver's queue |
| OsmpAlone.RecvAlone | OSMP/lib/OSMPlib.c:118-155 | an uninterrupted receive takes the oldest message and gives everything back, or loses the message and two semaphore posts if the buffer is too small |
| OsmpRace.ReceiveCanDeliverTheWrongMessage | OSMP/lib/OSMPlib.c:130-143 | for any number of processes from two on and of sending threads from one on, any payload and any second one not longer, a run in which the receive of the first returns the second |
| OsmpRace.ReceiveCanOverrunItsBuffer | OSMP/lib/OSMPlib.c:138-143 | for the same programs, any payload and any longer second one, a run in which a receive with room for the first has the second copied |
| OsmpRace.RacesExactly | OSMP/lib/OSMPlib.c:70-155 | a receive can return another message than the one it dequeued if and only if there are at least two processes and one sending thread; so can one overrun its buffer |
| OsmpShared.Process.Enqueue | OSMP/lib/OSMPlib.c:108-111 | the ring becomes the ring after a put |
| OsmpShared.Process.Dequeue | OSMP/lib/OSMPlib.c:125-128 | returns the next slot, and the ring becomes the ring after a take |
| OsmpShared.SlotPool.InitMemory | OSMP/OSMPRun/OSMPRun.c:152-161 | the loops leave the cyclic list and empty rings |
| OsmpShared.SlotPool.Pop | OSMP/lib/OSMPlib.c:91-93 | returns the head and pops the list |
| OsmpShared.SlotPool.Write | OSMP/lib/OSMPlib.c:98-102 | writes source, length and payload of a call into one slot and changes no other; every slot keeps as many bytes as it says |
| OsmpShared.SlotPool.Push | OSMP/lib/OSMPlib.c:134-135 | pushes the slot on the list |
| OsmpShared.SlotPool.Read | OSMP/lib/OSMPlib.c:138-148 | accepts lengths up to datatype times count, and any if the count is negative and the datatype is not zero; an accepted message is delivered whole, a refused one leaves the buffer alone; this is what the reads of the step system find |
| OsmpShared.CopyAllFinds | OSMP/lib/OSMPlib.c:138-148 | all reads of an undisturbed receive add one outcome to the log, of one read if the message is too long and of four otherwise |
| OsmpShared.ReceiveAccepts | OSMP/lib/OSMPlib.c:138 | a receive accepts lengths up to datatype times count, and every length if the count is negative and the datatype is not zero |
| Barrier.RunIsSafe | OSMP/lib/OSMPlib.c:197-206 | without spurious wake-ups, in every reachable state all processes are in the same or in neighbouring rounds and the counter never falls below what the waiting ones account for |
| Barrier.NobodyLeavesEarly | OSMP/lib/OSMPlib.c:197-206 | without spurious wake-ups nobody returns from a k-th barrier before everybody has entered its k-th one, whatever the interleaving |
| Barrier.SpuriousWakeUpExactly | OSMP/lib/OSMPlib.c:203-205 | the first spurious wake-up of a run lets a process leave early if and only if not everybody waits at that moment |
| Barrier.SpuriousBreaksExactly | OSMP/lib/OSMPlib.c:203-205 | on some run with spurious wake-ups somebody leaves early if and only if there are at least two processes |
| Barrier.LostExactly | OSMP/lib/OSMPlib.c:205 | an arrival gets lost exactly when a woken process resets the counter while another one already waits |
| Barrier.LostForever | OSMP/lib/OSMPlib.c:198-205 | after a lost arrival nobody is ever released again |
| Barrier.LiveExactly | OSMP/lib/OSMPlib.c:197-206 | bookkeeping for WorksExactly: counter and waiting processes add up, with nobody waiting while a woken one is on the way out, exactly as long as nobody has entered while a woken process had not left |
| Barrier.NobodyIsReleasedAgain | OSMP/lib/OSMPlib.c:197-206 | after such an entry everybody who enters, at any later time, waits |
| Barrier.WorksExactly | OSMP/lib/OSMPlib.c:197-206 | some course of events releases the waiting processes again if and only if, so far, nobody has entered while a woken process had not left |
| Barrier.OrderlyBarrier | OSMP/lib/OSMPlib.c:197-206 | in such runs cond is size again whenever all are outside, and the processes are never all stuck |
| Barrier.BackToBackCanDeadlock | OSMP/lib/OSMPlib.c:197-206 | a run of two processes through two barriers that ends with both waiting and no step possible but a spurious wake-up |
| Barrier.SpuriousWakeUpBreaksTheBarrier | OSMP/lib/OSMPlib.c:203-205 | the shortest instance of SpuriousBreaksExactly, for any number of processes from two on |
| Barrier.CondBarrier.Enter | OSMP/lib/OSMPlib.c:198-205 | the counter after an arrival is that of the step system, and the arrival broadcasts if and only if it lets its process out |
| Barrier.CondBarrier.Leave | OSMP/lib/OSMPlib.c:205 | the counter after a process has come out of its wait, woken or spuriously, is that of the step system |
| Barrier.CondBarrier.Schedule | OSMP/lib/OSMPlib.c:197-206 | under any schedule the shared counter goes through the run that the theorems are about |
| Broadcast.EveryBufferIsTheRoots | OSMP/lib/OSMPlib.c:210-239 | without spurious wake-ups, over any number of broadcasts with any roots, every buffer a process has got is the payload of that call's root, and a process that has returned has got it |
| BroadcastReturns.ReturnsExactly | OSMP/lib/OSMPlib.c:210-239 | all processes can still return from all their broadcasts if and only if, so far, nobody has entered a barrier while a woken process had not left the one before |
| BroadcastReturns.HangsExactly | OSMP/lib/OSMPlib.c:223-238 | a program of broadcasts can hang if and only if it has a broadcast and at least two processes |
| BroadcastReturns.BroadcastCanDeadlock | OSMP/lib/OSMPlib.c:223-238 | for any payload, a run of one broadcast by two processes that ends with both in the second barrier and no step possible but a spurious wake-up |
| BroadcastSpurious.GoesWrongExactly | OSMP/lib/OSMPlib.c:203-239 | with spurious wake-ups some process can get a buffer that is not its root's if and only if there are at least two processes and some payload is not empty |
| Tftp.PowSquare | Netzwerkprogrammierung/tftp/tftp_server.c:103-107 | the power of a square is the power with the exponent doubled |
| Tftp.IntPow | Netzwerkprogrammierung/tftp/client.c:413-422 | the squaring loop computes the power, with the absolute value of the exponent |
| TftpRead.ClientFileIsPrefix | Netzwerkprogrammierung/tftp/client.c:309-330 | on every run the client's file is the first whole blocks of the server's, and all of it when the client closes on a short block; for files of every size |
| TftpRead.NumbersStayClose | Netzwerkprogrammierung/tftp/tftp_server.c:208-222 | acknowledgements in the network are at most the client's last block, data and the server's block at most one more, although stale acknowledgements move the server back, and so does the client's ERROR packet, which the server takes for an acknowledgement of block 0 |
| TftpRead.CompletesExactly | Netzwerkprogrammierung/tftp/client.c:310-327 | the client can finish if and only if the file has fewer than 65535 * 512 bytes |
| TftpRead.WrapsExactly | Netzwerkprogrammierung/tftp/tftp_server.c:217 | the server's block number never wraps if and only if the file has at most 65534 * 512 bytes |
| TftpRead.TeardownMeansComplete | Netzwerkprogrammierung/tftp/tftp_server.c:208-222 | for files of every size, when a server has been torn down by what it took for an acknowledgement, the client has the whole file |
| TftpRead.TeardownExactly | Netzwerkprogrammierung/tftp/tftp_server.c:213-216 | unless the block number has wrapped, an acknowledgement tears the session down if and only if the acknowledged blocks are the whole file and the server is at a short block |
| TftpRead.AcknowledgedTeardownExactly | Netzwerkprogrammierung/tftp/tftp_server.c:208-222 | an acknowledgement can tear the session down if and only if the file is not empty and has at most 65535 * 512 bytes |
| TftpRead.FinalBlockIsAcknowledgedExactly | Netzwerkprogrammierung/tftp/client.c:310-327 | the final block is ever acknowledged if and only if the size is no multiple of 512 and under 65535 * 512 bytes |
| TftpReadAnswers.StartsWithBlockOne | Netzwerkprogrammierung/tftp/tftp_server.c:115-127 | a session starts with block 1 on the way and all counts at zero |
| TftpReadAnswers.ServerResends | Netzwerkprogrammierung/tftp/tftp_server.c:138-158 | in every reachable state the server's timer event sends the current block again, unchanged, while fewer than three have been resent since the last acknowledgement, and otherwise ends the session |
| TftpReadAnswers.ServerAnswers | Netzwerkprogrammierung/tftp/tftp_server.c:208-222 | in every reachable state an acknowledgement of n blocks that does not end the session is answered with block n + 1 and clears the count of resends |
| TftpReadAnswers.ClientAnswers | Netzwerkprogrammierung/tftp/client.c:309-331 | in every reachable state the client writes and acknowledges the next block if it is not empty, is done if it is short, and ignores every other block altogether |
| TftpReadAnswers.ClientResends | Netzwerkprogrammierung/tftp/client.c:256-269 | in every reachable state the client's timer event sends the acknowledgement of its last block again; the fifth one also sends ERROR and ends the session |
| TftpReadAnswers.RecoversExactly | Netzwerkprogrammierung/tftp/tftp_server.c:138-158 | a read session whose packets have all been lost can be finished if and only if the file has fewer than 65535 * 512 bytes and either the server can still send the block that the client waits for or the client can still send an acknowledgement that does not end the server's session |
| TftpWrite.BlocksInOrder | Netzwerkprogrammierung/tftp/tftp_server.c:192-199 | for files under 65535 * 512 + 500 bytes, on every run the server writes blocks 1, 2, 3, ... once each, and its file is a prefix of the source |
| TftpWrite.TeardownExactly | Netzwerkprogrammierung/tftp/tftp_server.c:193-205 | for files of every size, a block of fewer than 500 bytes tears the session down, and leaves the whole file if and only if it was the expected one |
| TftpWrite.TeardownMeansComplete | Netzwerkprogrammierung/tftp/tftp_server.c:181-206 | for files of every size: as long as the server's timer does not fire, teardown and a finished client both mean that all the file has been written |
| TftpWrite.InOrderExactly | Netzwerkprogrammierung/tftp/tftp_server.c:193-196 | every run writes the blocks once and in order if and only if the file has fewer than 65535 * 512 + 500 bytes |
| TftpWrite.CompletesExactly | Netzwerkprogrammierung/tftp/client.c:341-382 | the client can finish if and only if the file has fewer than 65534 * 512 + 500 bytes, and for each of these some run ends with everything written |
| TftpWrite.LossyTeardownExactly | Netzwerkprogrammierung/tftp/tftp_server.c:138-158 | a teardown over an incomplete file is reachable if and only if the file has from 500 to under 65535 * 512 + 500 bytes |
| TftpWrite.LossyFinishExactly | Netzwerkprogrammierung/tftp/tftp_server.c:138-158 | a client can be done over an incomplete file if and only if the file is not empty and has under 65534 * 512 + 500 bytes |
| TftpWriteAnswers.StartsWithAckZero | Netzwerkprogrammierung/tftp/tftp_server.c:181-206 | a session starts with ACK 0 on the way, nothing written and all counts at zero |
| TftpWriteAnswers.ServerAnswers | Netzwerkprogrammierung/tftp/tftp_server.c:181-206 | in every reachable state every block is acknowledged, written if and only if it is the next one, and ends the session if and only if it is final |
| TftpWriteAnswers.ServerRejects | Netzwerkprogrammierung/tftp/tftp_server.c:200-202 | a packet that is no block ends the server with an ERROR and nothing written; only a client that has given up sends one |
| TftpWriteAnswers.ServerResends | Netzwerkprogrammierung/tftp/tftp_server.c:138-158 | in every reachable state the server's timer event acknowledges the block that it waits for, three times in a session, and then ends it |
| TftpWriteAnswers.ClientAnswers | Netzwerkprogrammierung/tftp/client.c:341-382 | in every reachable state the client sends the next block when its current one is acknowledged, is done when that was the final one, and ignores every other acknowledgement altogether |
| TftpWriteAnswers.ClientResends | Netzwerkprogrammierung/tftp/client.c:256-269 | in every reachable state the client's timer event sends its current block again; the fifth one also sends ERROR and ends the session |
| TftpWriteAnswers.RecoversExactly | Netzwerkprogrammierung/tftp/client.c:256-269 | a write session that has sent a block and whose packets have all been lost can be completed if and only if the client can still send its current block, the server lacks no earlier one, and the file has fewer than 65534 * 512 + 500 bytes |
| TftpFraming.StoredExactly | Netzwerkprogrammierung/tftp/client.c:279-285 | a block is stored with its own bytes in front if and only if nothing but zeros follows a byte of value one in it, and with up to 12 zeros behind, as far as a packet has room |
| TftpFraming.ServerStores | Netzwerkprogrammierung/tftp/tftp_server.c:192-196 | on every run the server adds to its file what is stored for the block it expects, and nothing for any other |
| TftpFraming.NeverTheSameFile | Netzwerkprogrammierung/tftp/client.c:271-291 | a server that has written all blocks has at least 12 bytes more than the client; the client's file stands in front of them if and only if nothing but zeros follows a byte of value one in each of its blocks |
| TftpFraming.InsideBufferExactly | Netzwerkprogrammierung/tftp/client.c:271-291 | the copy of the datagram in line 285 stays inside session->buf on every run if and only if the file has at most 500 bytes |
| TftpEndpoints.Connector.SendData | Netzwerkprogrammierung/tftp/tftp_server.c:115-127 | sends the block at its offset and notes how much was read, as the read protocol's server |
| TftpEndpoints.Connector.HandleRead | Netzwerkprogrammierung/tftp/tftp_server.c:208-222 | is the server's reaction to an acknowledgement |
| TftpEndpoints.Connector.HandleWrite | Netzwerkprogrammierung/tftp/tftp_server.c:181-206 | is the server's reaction to a data block, and to a packet that is none |
| TftpEndpoints.Connector.TimeoutHandling | Netzwerkprogrammierung/tftp/tftp_server.c:138-158 | is the server's timeout in both protocols (ServerResends in TftpReadAnswers and TftpWriteAnswers say what it sends) |
| TftpEndpoints.Session.GetCommand | Netzwerkprogrammierung/tftp/client.c:293-339 | is the client's reaction to a data block |
| TftpEndpoints.Session.SendData | Netzwerkprogrammierung/tftp/client.c:271-291 | sends the next block and returns 16 more than was read, which is within the 516 bytes of session->buf if and only if the block has at most 500 bytes |
| TftpEndpoints.Session.PutCommand | Netzwerkprogrammierung/tftp/client.c:341-382 | is the client's reaction to an acknowledgement |
| TftpEndpoints.Session.Timeout | Netzwerkprogrammierung/tftp/client.c:256-269 | is the client's timeout in both protocols (ClientResends in TftpReadAnswers and TftpWriteAnswers say what it sends), with the next delay TIMEOUT * 2^k, and with an ERROR packet when it gives up |
| TftpEndpoints.ServersGiveUp | Netzwerkprogrammierung/tftp/tftp_server.c:138-158 | with a silent peer a server session survives exactly the timer events its count still allows, and is never torn down as if complete |
| TftpEndpoints.ClientsGiveUp | Netzwerkprogrammierung/tftp/client.c:256-269 | with a silent peer a client session closes with the fifth timer event and always resends the same packet |
| TftpEndpoints.TotalWait | Netzwerkprogrammierung/tftp/client.c:267 | the waiting times up to the n-th event add up to 20000 * (2^(n+1) - 1) milliseconds |
| Timers.BeforeIsLess | Netzwerkprogrammierung/tftp/cblib.c:286-299 | comparing normalised times is comparing microseconds |
| Timers.DeadlineIsExact | Netzwerkprogrammierung/tftp/cblib.c:334-341 | one carry makes the deadline normalised and exactly `timeout` milliseconds after now |
| Timers.TimerList.FindPredecessor | Netzwerkprogrammierung/tftp/cblib.c:357-361 | the loop finds the last timer whose deadline is not later |
| Timers.TimerList.LinkFirst | Netzwerkprogrammierung/tftp/cblib.c:343-355 | the pointer writes put the timer in front and keep the list linked both ways, without repetition and sorted |
| Timers.TimerList.LinkBehind | Netzwerkprogrammierung/tftp/cblib.c:362-368 | the pointer writes put the timer behind the one found, with the same invariant; if that is the timer itself they make the list a ring |
| Timers.TimerList.UnknownExactly | Netzwerkprogrammierung/tftp/cblib.c:322-332 | a timer in the list is not recognised as started if and only if it is alone there with all its times zero |
| Timers.TimerList.StartTimer | Netzwerkprogrammierung/tftp/cblib.c:312-375 | a timer that is not in the list is inserted behind all with the same or an earlier deadline; one recognised as started changes nothing at all; one that is in the list and not recognised makes the list a ring |
| Timers.TimerList.Unlink | Netzwerkprogrammierung/tftp/cblib.c:387-396 | the pointer writes take out one timer and keep the invariant |
| Timers.TimerList.StopTimer | Netzwerkprogrammierung/tftp/cblib.c:377-415 | the list loses exactly the given timer, or nothing if it is not listed; the timer is reset |
| Agenda.InsertAt | Netzwerkprogrammierung/tftp/cblib.c:349-368 | inserting by comparing from the front is inserting at the position that the pointer version finds |
| Agenda.InsertedBehindEquals | Netzwerkprogrammierung/tftp/cblib.c:349-368 | a new timer comes behind exactly those with the same or an earlier deadline; the others keep their order |
| Agenda.TimeoutIsProper | Netzwerkprogrammierung/tftp/cblib.c:456-463 | the timeout given to select is normalised, exact, and not negative exactly if the deadline is not over |
| Agenda.FiresExactly | Netzwerkprogrammierung/tftp/cblib.c:444-480 | a timer fires if and only if the head's deadline is over or select reports that its time is; it is exactly one, the head, and it is off the list when its callback runs |
| Agenda.OneEvent | Netzwerkprogrammierung/tftp/cblib.c:446-485 | the fired timer has the earliest deadline, which is over, and is not armed when its callback runs |
| Agenda.FiredInOrder | Netzwerkprogrammierung/tftp/cblib.c:434-497 | over a whole run timers fire in the order of their deadlines and never early, whatever callbacks start and stop in between |
| Agenda.FiresInTime | Netzwerkprogrammierung/tftp/cblib.c:434-505 | a timer in place p that nobody stops has fired after p + 1 rounds in which its deadline is over or select is out of time, if other timers are started only behind its deadline |
| Agenda.FiresOnceOverdue | Netzwerkprogrammierung/tftp/cblib.c:434-505 | with a sound clock, an overdue timer that nobody stops fires within as many rounds as there are timers up to it, whatever the callbacks start |
| Agenda.EveryStartEndsOnce | Netzwerkprogrammierung/tftp/cblib.c:312-497 | over a whole run each effective start of a timer is matched by one firing, one effective stop, or the timer being armed at the end |
| EventLoop.SaneView | Netzwerkprogrammierung/tftp/cblib.c:312-415 | a valid list stands for a sorted agenda without duplicates |
| EventLoop.Loop.Start | Netzwerkprogrammierung/tftp/cblib.c:312-375 | start_timer on the list is the insertion into the agenda, except for a listed timer that is not recognised as started |
| EventLoop.Loop.Stop | Netzwerkprogrammierung/tftp/cblib.c:377-415 | stop_timer on the list is the deletion from the agenda |
| EventLoop.Loop.HandleEvent | Netzwerkprogrammierung/tftp/cblib.c:434-497 | the head of the list fires, and no descriptor callback is called, if its deadline is over or select reports that the time is; otherwise no timer fires and the callbacks of the right descriptors are called (FdTable.RoundIs), which after an error are all registered ones; select gets a proper timeout; agenda and table end as the callbacks' own calls make them |
| EventLoop.Loop.HandleEvents | Netzwerkprogrammierung/tftp/cblib.c:499-505 | a run produces the agenda's log, and with a sound clock and select it is in deadline order and nothing is early; the table is what the calls of all the callbacks make it |
| FdTable.NeverFull | Netzwerkprogrammierung/tftp/cblib.c:111-131 | the branch for a full table cannot be taken for descriptors below FD_SETSIZE |
| FdTable.Table.constructor | Netzwerkprogrammierung/tftp/cblib.c:74-86 | nothing is registered |
| FdTable.Table.RegisterFd | Netzwerkprogrammierung/tftp/cblib.c:88-132 | binds exactly this positive descriptor to this callback, new or not, and changes nothing without a positive descriptor and a callback; read_fds is the set of registered descriptors and maxfd its maximum; every registered descriptor keeps its slot |
| FdTable.Table.RegisterStdin | Netzwerkprogrammierung/tftp/cblib.c:173-212 | the same for descriptor 0 |
| FdTable.Table.DeregisterFd | Netzwerkprogrammierung/tftp/cblib.c:134-171 | afterwards exactly this positive descriptor is not registered any more, with read_fds and maxfd again exact; the others keep their callbacks and slots |
| FdTable.Table.DeregisterStdin | Netzwerkprogrammierung/tftp/cblib.c:214-239 | the same for descriptor 0; the maximum needs no loop |
| FdTable.Table.Maximum | Netzwerkprogrammierung/tftp/cblib.c:154-161 | the loop finds the maximum of the registered descriptors, or -1 |
| FdTable.Table.Perform | Netzwerkprogrammierung/tftp/cblib.c:88-239 | any sequence of these calls has their effects on the bindings, one after the other, and every descriptor that none of them forgets keeps its slot |
| FdTable.EffectsExactly | Netzwerkprogrammierung/tftp/cblib.c:88-239 | after any sequence of calls a descriptor is registered if and only if the last effective call about it registers it, and then with that call's callback; without such a call it is as before |
| FdTable.Table.Dispatch | Netzwerkprogrammierung/tftp/cblib.c:486-494 | with callbacks that register and deregister anything, themselves included: whoever is called has been reported and is registered at that moment, with the callback called; a reported registered descriptor that no callback forgets is called exactly once; nobody is called again unless forgotten in between, and nobody that an earlier callback forgot and none has registered since |
| FdTable.QuietRound | Netzwerkprogrammierung/tftp/cblib.c:486-494 | if the callbacks leave the table alone, exactly the reported registered descriptors are called, each once |
| Base64.TableIsAlphabet | Projekt_Systementwicklung/base64.c:12-19 | the written-out table is the alphabet of RFC 4648 |
| Base64.GroupsAreInOrder | Projekt_Systementwicklung/base64.c:47-76 | each four places are the 24 bits of three bytes, first bit first, filled up with zeros behind the end |
| Base64.BuildDecodingTable | Projekt_Systementwicklung/base64.c:29-36 | the loop builds the inverse of the encoding table and sets no other entry |
| Base64.PaddingAtEnd | Projekt_Systementwicklung/base64.c:71-72 | the padding stands at the end of an encoded text, and its length depends on the input length modulo 3 |
| Base64.RoundTrip | Projekt_Systementwicklung/base64.c:47-122 | decoding gives back every non-empty byte string, with its length |
| Base64.CanonicalExactly | Projekt_Systementwicklung/base64.c:87-122 | encoding a decoded text gives the text back if and only if it is canonical |
| Base64.Bijection | Projekt_Systementwicklung/base64.c:47-122 | encoding is a bijection from the non-empty byte strings onto the canonical texts |
| Base64.TextRoundTrip | Projekt_Systementwicklung/base64.c:47-122 | the round trip on characters |
| Base64.CanonicalTextExactly | Projekt_Systementwicklung/base64.c:87-122 | the condition for the way back, on characters |
| Base64.TestVectors | Projekt_Systementwicklung/base64.c:47-76 | the test vectors of section 10 of RFC 4648 |
| Base64Buffers.TripleSextets | Projekt_Systementwicklung/base64.c:63-68 | the shifts and masks of the encoder pick the bits of RFC 4648 |
| Base64Buffers.TripleBytes | Projekt_Systementwicklung/base64.c:110-117 | the shifts and masks of the decoder pick the bytes |
| Base64Buffers.RawOverwritten | Projekt_Systementwicklung/base64.c:57-72 | encoding with zero bytes and then overwriting the end with '=' is the encoding |
| Base64Buffers.EncodeBuffer | Projekt_Systementwicklung/base64.c:47-76 | the buffer holds the encoding and a NUL, with length 4 * ceil(n / 3) |
| Base64Buffers.DecodeBuffer | Projekt_Systementwicklung/base64.c:87-122 | the buffer holds the decoded bytes and a NUL; there is none exactly if the length is not a multiple of four |
| SceneWalk.VisitUploadsProducts | Computergrafik/src/szenegraph/scenegraph.ts:19-49 | for every acyclic scene each visit uploads top * T(root) * ... * T(node) along its path, with transforms as they were before the node's own draw |
| SceneWalk.FramesUploadProducts | Computergrafik/src/szenegraph/scenegraph.ts:51-54 | the same for the last of any number of frames, with every transform turned once for every earlier draw of its node |
| SceneOrder.VisitsInOrder | Computergrafik/src/szenegraph/scenegraph.ts:43-45 | a frame visits the nodes in the order of their routes from the root: a parent before its children, and everything below an earlier child before a later one |
| SceneWalk.TreeFrames | Computergrafik/src/szenegraph/scenegraph.ts:43-54 | in every frame no node is shown after different numbers of draws if and only if the scene is a tree; and it is one if and only if each node on each path was drawn once in every earlier frame and not yet in this one |
| SceneMoves.DrawnOnEveryWay | Computergrafik/src/szenegraph/scenegraph.ts:40-45 | a frame draws every node exactly once for every path to it |
| SceneMoves.EveryDrawIsShown | Computergrafik/src/szenegraph/scenegraph.ts:25-45 | each of these draws has its visit, in which the node has the transform that the draws before it left |
| SceneMoves.OnlyDrawsAreShown | Computergrafik/src/szenegraph/scenegraph.ts:25-45 | every node on every path of the frame has the transform that some of these draws left, and not all of them |
| SceneMoves.MovesExactly | Computergrafik/src/szenegraph/scenegraph.ts:40-45 | in every frame of every run, some node is uploaded with two transforms if and only if some node is reached on two paths and its draw changes the transform it has when the frame begins |
| SceneMoves.TreeExactly | Computergrafik/src/szenegraph/scenegraph.ts:43-45 | a scene is a tree if and only if no node is reached on two paths |
| SceneMoves.TreesStay | Computergrafik/src/szenegraph/scenegraph.ts:40-45 | in a tree no node is uploaded with two transforms in one frame, whatever draw does |
| SceneWalk.RootIsAppliedTwice | Computergrafik/src/szenegraph/scenegraph.ts:13-35 | with the stack as the constructor leaves it, the first upload of every frame is the root's initial transform times its present one; in the first frame, times itself |
| SceneMoves.SharedNodeMovesWithinAFrame | Computergrafik/src/szenegraph/scenegraph.ts:40-45 | MovesExactly for the smallest scene that is no tree, a node twice below another, with any draw and any product: it is uploaded with two transforms exactly in the frames in which its draw changes it |
| SceneGraph.MatrixStack.Push | Computergrafik/src/matrixstack/matrixstack.ts:9-11 | the stack grows by the value, in a matrix of its own |
| SceneGraph.MatrixStack.Pop | Computergrafik/src/matrixstack/matrixstack.ts:13-16 | the stack loses its top and the caller gets a copy |
| SceneGraph.Scenegraph.constructor | Computergrafik/src/szenegraph/scenegraph.ts:13-17 | the stack starts with the root's transform as it is then |
| SceneGraph.Scenegraph.Enter | Computergrafik/src/szenegraph/scenegraph.ts:25-35 | the product joins the stack and is uploaded; the values below stay, although the product is computed in place |
| SceneGraph.Scenegraph.DrawTraversal | Computergrafik/src/szenegraph/scenegraph.ts:19-49 | the stack ends as it began; uploads and transforms are those of Visit; it terminates on every acyclic scene |
| SceneGraph.Scenegraph.DrawChildren | Computergrafik/src/szenegraph/scenegraph.ts:43-45 | the loop does what visiting the children in order does |
| SceneGraph.Scenegraph.DrawFrames | Computergrafik/src/szenegraph/index.ts:219-229 | any number of frames upload what Frames says, all from the same stack top |

## Left out

OSMP

- OSMP_Isend and OSMP_Irecv are not modelled as calls; the step system has any number of sending threads, but one receive at a time per process, because line 122 leaves proc_mutex out.
- OsmpDelivery.DeliveryIsExact: does not model a fill that is half done while its slot is read, because lines 98-102 are one step; nor the bytes of an older message behind a shorter newer one, which an overtaken copy with the longer length would deliver.
- OSMP_Init, OSMP_Finalize, shm_open, mmap, fork and the moment at which each child is initialised: all memory and semaphores are ready before the first step.
- A semaphore operation that fails (ERROR_ROUTINE) and arithmetic overflow of msg_len, which line 80 rules out.
- Broadcast.EveryBufferIsTheRoots: does not model realloc of the buffer and the length field, because the receiver copies the whole payload either way; msg_len over the slot's size is excluded by the caller.
- Termination of OSMP_Send and OSMP_Recv under a fair scheduler.

TFTP

- Sockets, the request handshake, port choice, option parsing and file system errors.
- ERROR packets other than the client's own when it gives up, datagrams of fewer than four bytes, and packets with opcodes that neither program sends.
- TftpWrite.TeardownMeansComplete: speaks of the blocks that have been written, one number and its bytes each; what the framing of sendData does to these bytes is in TftpFraming.
- TftpEndpoints.ClientsGiveUp: a client that puts a block of more than 500 bytes writes behind session->buf, where session->timer stands; C leaves undefined what its timer does then, and the model's timer goes on.
- TftpEndpoints.Session.SendData: says when line 285 writes behind session->buf, and not what this does to the rest of the session.
- Retransmission of the requests themselves before the first answer.
- TftpWriteAnswers.RecoversExactly: speaks of sessions whose client has sent a block, because before that it would have to resend its request.
- Tftp.IntPow: does not model int overflow, because every use of it stays in range except the last squaring, whose value is not used.
- The delays of the server, which are always 10000 milliseconds; start_timer ignores a timer that is already running.

cblib

- FdTable.Table.RegisterFd: does not model descriptors of FD_SETSIZE and above, because FD_SET is undefined for them.
- EventLoop.Loop.HandleEvent: leaves out callbacks that start a timer at 0:0 with a timeout of zero, after which Timers.TimerList.UnknownExactly can apply.
- create_timer, delete_timer, timer descriptions and memory management; null arguments, which are only reported.
- The interleaving of the timer calls of several descriptor callbacks in one round with their table calls: the timer calls of a round are taken as one sequence.

Base64

- Characters outside the alphabet, for which decoding_table is not set, and empty input of the decoder, for which it reads before its buffer.
- Failing malloc, base64_cleanup, the wrappers that encode a SHA-1 digest, and the signedness of char.

Scene graph

- SceneGraph.Scenegraph.DrawTraversal: does not model rounding in mat4.mul, because matrices and their product are abstract; nor the normal matrix, the light position and the WebGL calls of draw.
- Scenes with a cycle, on which drawTraversal does not terminate, and draws that change the children or the transforms of other nodes.

Others

- The HTTP server, the echo and daytime servers, the Differentiator, keyboard and camera control, the user interfaces and generated files.
