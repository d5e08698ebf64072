# Verified models of the network and concurrency programs

Each program is modelled twice where it has both sides: as code that updates its state in place, in the
form of the C source (classes with the source's arrays and fields, loops with the source's bounds), and as
interleaved steps of its processes or threads, over which the theorems range. Both use the same functions
for what an operation does. Constants are parameters: pool size `n`, limits `min` and `max`, buffer sizes,
iteration counts. A process may be interrupted after every access to shared memory and every system call.

- **Pre-fork pool** (`dynamic_pool.c`). `SlotTable` says what add, delete, scan and adjust do to the slot
  table; `ServerPool` is the parent's code on the arrays, proved against it. `PoolProtocol` has parent and
  children as interleaved steps with the one pending bit of SIG_NOTIFY (standard signals coalesce, section
  2.4.1 of the System Interfaces volume of POSIX.1-2017) and an invariant. `PoolTheorems` draws the
  conclusions for all runs, `PoolRefinement` shows that the sequential code is what the steps do when no
  child acts, `PoolRounds` measures the adjusting loops, and `PoolQuiet` finds its rounds again in the runs
  of the protocol. `PoolReach` forces runs for all limits; with it `PoolDrift` says for which limits the
  counters can go wrong, `PoolCutOff` when a delete can hit a server that has a client, and `PoolAbort` when
  the scan can abort.
- **Chat server** (`chat_server.c`). `ClientList` is the socket array with its shift-removal;
  `ChatProtocol` has the accepting thread and the handlers; `ChatTheorems` shows a total-order broadcast, and
  `ChatRuns` that every exchange of messages can happen.
- **Calculator** (`tcp/calc_client.c`, `tcp/calc_server.c`). `CalcWire` is the message and its reassembly,
  `CalcFold` the arithmetic.
- **Event loops** (`select/echo_select_server.c`, `epoll/*.c`). `EventLoop` is the dispatch round with fd
  reuse and clients that keep sending, `EventDrain` counts the rounds once they stop, and `EventServer` has the
  servers' code; `Readiness` compares level-triggered and edge-triggered reporting.
- **Streams**. `EchoStream` (`tcp/echo_client.c`, `tcp/echo_server.c`), `FileTransfer` (`close/*.c`) and
  `StoreLog` (`tcp/echo_store_server.c`) conserve bytes over every fragmentation and interleaving.
  `Channels` is the stream that the loops read from.
- **Semaphores** (`thread/semaphore.c`). `Handoff`.

Findings about the pool:

- The counters of a parent at rest can be wrong although every notification was handled: a server that writes
  IDLE and is deleted before it notifies was counted as busy and is taken off the idle count. They are off by
  the number of such deletes in the last round. In some run this happens if and only if the table has room
  for two servers more than the maximum of idle ones, and the minimum is not 0; with the compiled constants 5,
  10 and 20 it does.
- A delete tests a slot and then kills, so the server may have accepted a client. In some run a delete cuts a
  client off if and only if the table is larger than the maximum of idle servers and the minimum is not 0,
  that is, if and only if deletes can happen at all.
- Because the loop bounds are evaluated again while `i` grows, a round moves only half of the distance to the
  limit. Below the minimum the added servers' own notifications bring about the next round. Above the maximum
  nothing does: half of the excess that the slots show when the parent wakes up stays until a server notifies,
  because it takes a client, has finished with one, or had its accept interrupted. With the compiled constants
  15 servers can be left idle, where the maximum is 10.
- Wrong counters do not last: the first round in which no slot changes makes them right.
- The scan reads a slot's state twice. A server that goes from BUSY to IDLE in between makes the parent abort.
  In some run this happens if and only if the pool has a slot and a minimum, that is, ever has a server.

Assumptions, beside those at the head of each file: `accept`, `fork`, `read` and `write` do not fail where
the source does not check them; servers' writes are whole; `accept` returns an fd that is not open; the two
reads of a slot's state in one scan iteration (lines 134 and 136) are one, except in `PoolAbort`, which shows
that this hides nothing but the abort; a child that was sent SIGTERM
takes no further step; `fork` returns a pid that no live server of the pool has and no other process takes
over the pid of a dead one; a new chat handler copies its socket before the next `accept` overwrites it; a
pipe write of one buffer is atomic.

## Model

| member | source | states |
|---|---|---|
| `SlotTable.FreeSlotExists` | dynamic_pool.c:51-56 | the search for a slot stays inside the table if and only if some slot is free |
| `SlotTable.Scan` | dynamic_pool.c:122-146 | after a scan the counters are the numbers of occupied slots in each state and add up to all of them |
| `SlotTable.AddServerKeeps` | dynamic_pool.c:43-71 | an add keeps the counters equal to the occupied slots, and exact by state if they were |
| `SlotTable.DelServerKeeps` | dynamic_pool.c:105-120 | so does a delete |
| `SlotTable.DelServerFinds` | dynamic_pool.c:107-118 | with exact counters a positive idle count means that a delete finds a server |
| `ServerPool.Pool.constructor` | dynamic_pool.c:183-185 | the table starts with no occupied slot and zero counters |
| `ServerPool.Pool.Add1Server` | dynamic_pool.c:43-71 | returns -1 and changes nothing when full, else returns 0 and puts the pid into the first free slot as idle, counting it; never indexes past the table |
| `ServerPool.Pool.Del1Server` | dynamic_pool.c:105-120 | returns -1 for an idle count of 0 and else 0; frees the first idle server's slot and counts it off, or changes nothing if there is none |
| `ServerPool.Pool.ScanPool` | dynamic_pool.c:122-146 | frees exactly the slots whose server is dead and recounts the others |
| `ServerPool.Pool.AdjustPool` | dynamic_pool.c:226-234 | the two loops with bounds that move end and, from exact counters, leave the idle count of the round formula, the same busy count and exact counters |
| `PoolProtocol.NextKeepsInv` | dynamic_pool.c:43-234 | every step of parent or child keeps ownership of slots, the bookkeeping up to the drift, the pace of the loops, and that each change of state is recorded, about to be notified, pending or still to be scanned |
| `PoolTheorems.NoLostWakeup` | dynamic_pool.c:81-94 | while the parent sleeps, every live server's state is the recorded one, or the server is about to notify, or a signal is pending |
| `PoolTheorems.SleepingCounters` | dynamic_pool.c:216-224 | at rest the parent's counters are off by exactly the number of servers that the last round deleted although it had recorded them as busy |
| `PoolDrift.CountersRight` | dynamic_pool.c:15-17 | in all runs the counters are right whenever the parent is at rest, if and only if the minimum is 0 or the table has at most one slot more than the maximum |
| `PoolDrift.CountersCanBeWrong` | dynamic_pool.c:81-118 | for all other limits, a reachable state at rest in which they are wrong |
| `PoolDrift.AsCompiled` | dynamic_pool.c:15-17 | the constants 5, 10 and 20 of the program are among those |
| `PoolTheorems.SlotsAreTruthful` | dynamic_pool.c:81-101 | in every run a live server's slot shows, at each point of the server, what it last wrote or, before its first write, the IDLE that the add wrote |
| `PoolReach.FullAndIdle` | dynamic_pool.c:212-234 | for all limits with a minimum the table can be filled by rounds that find a deficit, and all servers then come to wait for clients |
| `PoolCutOff.ClientsCutOff` | dynamic_pool.c:111-113 | some run comes to kill a server that holds a client if and only if the limits allow deletes at all |
| `PoolCutOff.WhoIsCutOff` | dynamic_pool.c:84-113 | in every run such a server had accepted without marking its slot when it was tested, or accepted between test and kill, or has the pid of a dead one |
| `PoolTheorems.CountersAddUp` | dynamic_pool.c:43-71 | in every run, outside scans, idle plus busy is the number of occupied slots, and no add writes past the table |
| `PoolTheorems.SlotsAreExclusive` | dynamic_pool.c:51-68 | no two live servers own a slot, there are at most n, and each is recorded once its add has returned |
| `PoolTheorems.AddTakesFirstFree` | dynamic_pool.c:47-56 | in every run an add takes the first free slot and marks it IDLE, or does nothing when the counters say that the table is full |
| `PoolTheorems.StartsMinimum` | dynamic_pool.c:212-214 | in every run main has started exactly the minimum of servers, or as many as fit, when it first sleeps |
| `PoolReach.DeadIsReaped` | dynamic_pool.c:129-133 | a server may die at any time, and the next scan frees its slot and no slot of another live server |
| `PoolQuiet.InterruptedAnnounces` | dynamic_pool.c:84-89 | an interrupted accept makes a server notify the parent again, although no slot changes |
| `PoolTheorems.NoOvershoot` | dynamic_pool.c:226-233 | under every interleaving a deleting loop keeps idle at or above the maximum and an adding loop of a round at or below the minimum |
| `PoolTheorems.ParentStepLowersRank` | dynamic_pool.c:216-234 | each parent step of a round lowers a bound on the steps left, although bounds are re-evaluated and calls may fail |
| `PoolTheorems.ChildStepKeepsRank` | dynamic_pool.c:81-101 | no child step raises it |
| `PoolTheorems.RoundsEnd` | dynamic_pool.c:216-234 | between two sleeps the parent makes at most a fixed number of steps, whatever the children do |
| `PoolRefinement.ScanReaches` | dynamic_pool.c:122-146 | undisturbed, the steps of a scan compute the sequential scan |
| `PoolRefinement.ShrinkReaches` | dynamic_pool.c:226-229 | undisturbed, the steps of the deleting loop compute the sequential loop |
| `PoolRefinement.GrowReaches` | dynamic_pool.c:230-233 | undisturbed, the steps of the adding loop compute the sequential loop |
| `PoolRefinement.QuietRoundReaches` | dynamic_pool.c:216-234 | from a woken parent, parent steps alone lead back to sleep with the table that scan and adjust compute |
| `PoolRounds.GrowLoopExact` | dynamic_pool.c:230-233 | a deficit d with f free slots adds exactly min(ceil(d/2), f) servers and leaves the others alone |
| `PoolRounds.ShrinkLoopExact` | dynamic_pool.c:226-229 | an excess e removes exactly ceil(e/2) servers, all idle |
| `PoolRounds.RoundExact` | dynamic_pool.c:224-234 | what one undisturbed round does to the counters, with and without room |
| `PoolRounds.RoundHalves` | dynamic_pool.c:226-234 | with room, a round halves the distance to [min, max], rounding down |
| `PoolQuiet.RoundsOfRun` | dynamic_pool.c:216-234 | from any sleep with all servers alive, with counters right or wrong, in every run in which no slot changes its state and no server dies: after a round the counters are right, and the idle count is what the round formula, applied once a round, makes of the servers that the slots showed as idle, wherever the announcements fall |
| `PoolQuiet.RunConverges` | dynamic_pool.c:216-234 | in every such run with room, the sleeping parent's idle count is in [min, max] if and only if it woke up at least floor(log2(distance)) + 1 times, for the distance that the slots showed |
| `PoolQuiet.GrowthGoesOn` | dynamic_pool.c:81-83 | in every such run with room, after a round that ends below the minimum a notification is pending or about to be sent |
| `PoolQuiet.ShrinkingRests` | dynamic_pool.c:216-229 | when the slots show an excess of e and no server acts any more, the round leaves max + e / 2 idle, rounded down, and the parent cannot move |
| `PoolQuiet.ExcessStays` | dynamic_pool.c:216-229 | for all limits that allow deletes, such a state at rest is reachable with the excess of a whole idle table |
| `PoolAbort.SameStates` | dynamic_pool.c:134-138 | with two reads of the state the reachable states are those with one read, up to an abort |
| `PoolAbort.AbortReachable` | dynamic_pool.c:134-141 | with two reads some run aborts if and only if the minimum and the table are not 0 |
| `PoolRounds.RoundsConverge` | dynamic_pool.c:216-234 | the idle count is in [min, max] after k rounds if and only if k is at least floor(log2(distance)) + 1 |
| `ClientList.RemovedListed` | chat_server.c:83-92 | removing a listed socket deletes its entry and keeps the order of the rest |
| `ClientList.RemovedUnlisted` | chat_server.c:83-92 | for a socket that is not listed the unconditional decrement drops the last client |
| `ClientList.RemovedIsExact` | chat_server.c:83-92 | exactly the caller's socket leaves a duplicate-free list if and only if it was listed |
| `ClientList.Clients.Register` | chat_server.c:52-54 | appends the socket |
| `ClientList.Clients.ShiftDown` | chat_server.c:85-88 | the in-place shift deletes one position |
| `ClientList.Clients.Remove` | chat_server.c:82-92 | search, shift and decrement compute the removal on the sequence |
| `ClientList.Clients.SendMessage` | chat_server.c:98-105 | write number k of the call goes to client k with the message, for each client once |
| `ChatProtocol.NextKeepsInv` | chat_server.c:48-105 | every step keeps fd ownership, the list, the mutex, what each connection was sent and what each sender logged |
| `ChatTheorems.LogGrows` | chat_server.c:98-105 | there is one log for a whole run, and it only grows |
| `ChatTheorems.TotalOrder` | chat_server.c:52-105 | whenever no broadcast is under way each connection has been sent exactly the slice of the log from its registration to its removal or to now |
| `ChatTheorems.CommonView` | chat_server.c:98-105 | two connections were sent every part of their common interval alike |
| `ChatTheorems.MidBroadcast` | chat_server.c:101-103 | in a broadcast about to write to client i exactly the first i listed clients have the last entry |
| `ChatTheorems.PerSenderFifo` | chat_server.c:76-78 | the log restricted to a sender is what its handler read, minus at most a chunk that waits for the mutex |
| `ChatTheorems.ListIsSound` | chat_server.c:80-94 | the list is duplicate-free and of open sockets, a leaving handler is listed, a closing one is not |
| `ChatTheorems.RemovalIsExact` | chat_server.c:82-93 | in a run a removal deletes the caller's entry, no other, so the decrement is always matched |
| `ChatTheorems.BroadcastProceeds` | chat_server.c:98-105 | the holder of the mutex can always write on or let go |
| `ChatRuns.HandlerSteps` | chat_server.c:71-95 | in every run a handler reads and sends in turn, leaves only from its read, then is removed and closes |
| `ChatRuns.HandlersProceed` | chat_server.c:48-95 | in every run, whenever the mutex is free, every thread that has not closed its connection can go on |
| `ChatRuns.ListInOrder` | chat_server.c:52-54 | in every run the list has the sockets in the order of their accepts |
| `ChatRuns.EveryScriptRuns` | chat_server.c:76-78 | for all messages of n clients in any order there is a run in which the handlers read them and all clients are sent all of them |
| `ChatRuns.EveryoneCanLeave` | chat_server.c:80-95 | which can go on until no socket is listed or open |
| `CalcWire.Int4Bytes4` | tcp/calc_server.c:58 | four bytes in memory stand for every 32-bit operand and are read back as it |
| `CalcWire.IntsOfOperands` | tcp/calc_server.c:58 | the buffer read as ints gives the operands laid out in it |
| `CalcWire.PutInt` | tcp/calc_client.c:38 | an operand is written at its offset behind what is there |
| `CalcWire.SendRequest` | tcp/calc_client.c:33-46 | exactly count, operands from offset 1 on in 4 bytes each, and operator are written, for up to 255 operands |
| `CalcWire.ReadCount` | tcp/calc_server.c:50 | whatever count the last connection left, reading one byte into it gives the byte as a non-negative number |
| `CalcWire.Reassemble` | tcp/calc_server.c:51-57 | for every fragmentation the loop ends with all bytes in order, inside the buffer |
| `CalcWire.ServeConnection` | tcp/calc_server.c:48-60 | for counts 1 to 255, all operands, every operator byte and every fragmentation calc gets what the client entered |
| `CalcWire.PartOfResult` | tcp/calc_client.c:47-48 | a read of the first n bytes of the result gives the result if and only if the other bytes were in memory already |
| `CalcWire.WholeResult` | tcp/calc_client.c:47-48 | so it gives the result whatever the memory held, if and only if it gets all four bytes |
| `CalcWire.ReadResult` | tcp/calc_client.c:48 | one read, of any of the bytes that the server wrote |
| `CalcWire.Exchange` | tcp/calc_client.c:33-48 | calc yields the fold of what was entered, and the client ends with it exactly as PartOfResult says; after an exit it ends with what its memory held |
| `CalcWire.ServeNumber` | tcp/calc_server.c:40-61 | one connection of several is answered by calc of its operands, which is the sum, difference, product or quotient if it is a number, and leaves the others' streams alone |
| `CalcWire.ServeAll` | tcp/calc_server.c:39-61 | successive connections are each answered so until calc does not return |
| `CalcFold.CalcLoop` | tcp/calc_server.c:67-88 | the loop is the left fold, and ends where C leaves the result undefined or the program exits |
| `CalcFold.FoldExact` | tcp/calc_server.c:69-83 | the fold is defined if and only if every intermediate result of the integer fold fits 32 bits and no divisor is zero |
| `CalcFold.CalcDefined` | tcp/calc_server.c:67-88 | the same for calc; it exits if and only if the operator is unknown |
| `CalcFold.TruncDivTwice` | tcp/calc_server.c:81 | truncating division by b and then c is truncating division by b * c, for all signs |
| `CalcFold.DivideFold` | tcp/calc_server.c:80-82 | dividing by one operand after another is one truncating division by their product |
| `CalcFold.CalcClosedForm` | tcp/calc_server.c:67-88 | sum, difference with the sum of the rest, product, or truncated quotient by the product of the rest |
| `CalcFold.DivideDefined` | tcp/calc_server.c:80-82 | a division loop fails if and only if a divisor is zero or the first divisor other than 1 is -1 and the dividend is INT_MIN |
| `CalcFold.AnyOrderDefined` | tcp/calc_server.c:71-73 | + is defined for every order of the operands, if and only if the positive ones sum to at most INT_MAX and the others to at least INT_MIN |
| `CalcFold.AnyOrderTimes` | tcp/calc_server.c:77-79 | * is defined for every order of the operands, if and only if the product of the nonzero ones fits and, where it is INT_MIN, no operand is -1 |
| `CalcFold.OrderIrrelevant` | tcp/calc_server.c:71-79 | reordering the operands of + or * does not change a defined result |
| `EventServer.Server.Arrivals` | select/echo_select_server.c:60 | clients may send anything between any two calls of the server |
| `EventServer.Server.AcceptClient` | select/echo_select_server.c:50-55 | accept, registration and fdMax, which keeps bounding every registered fd |
| `EventServer.Server.ServeClient` | select/echo_select_server.c:60-69 | one read and its echo, or deregistration and close |
| `EventServer.Server.HandleReady` | select/echo_select_server.c:48-70 | a reported fd that is still to be handled stands for the connection it was reported for |
| `EventServer.Server.SelectRound` | select/echo_select_server.c:47-71 | each reported connection is read once in fd order, and what is echoed of it is at most a buffer; nothing of one accepted in the round is read, and it stays open; no arrived byte is lost, and an ended stream stays as it is; exactly the served connections with nothing to read are closed, though fdMax grows meanwhile |
| `EventServer.Server.EpollRound` | epoll/epoll_eplt_server.c:46-70 | the same for events in any order |
| `EventLoop.ConnsOfInOrder` | select/echo_select_server.c:47-48 | the connections that a round serves are those of the reported fds, in their order |
| `EventLoop.AnythingMayArrive` | select/echo_select_server.c:60 | every connection that has not ended may get any bytes or end |
| `EventLoop.LoopAnswers` | epoll/epoll_eplt_server.c:38-71 | after any number of rounds, with arrivals in between, every connection ever accepted is open, or its client ended the stream and everything was echoed |
| `EventDrain.RoundsDrain` | select/echo_select_server.c:33-71 | once nothing arrives and every ready fd is reported, everything is echoed on all connections after as many rounds as bytes wait on one, however short the reads |
| `EventDrain.FullRoundsDrain` | epoll/epoll_eplt_server.c:38-71 | with full reads everything is echoed on all connections if and only if there were at least (most bytes on one connection) / bufSize rounds, rounded up |
| `EventDrain.ThenTheEndedAreClosed` | epoll/epoll_eplt_server.c:61-67 | in the round after that exactly the connections stay open whose streams have not ended |
| `EventServer.Server.SelectLoop` | select/echo_select_server.c:33-71 | every round of the loop handles, in ascending order, all client fds that were ready after the clients sent; once they stop, everything is echoed after as many rounds as bytes wait on one connection |
| `EventServer.Server.EpollLoop` | epoll/epoll_eplt_server.c:38-71 | the same for events in any order |
| `Readiness.EchoConserves` | epoll/epoll_eplt_server.c:38-71 | in both modes echoed followed by unread is what arrived |
| `Readiness.LevelTriggeredDrains` | epoll/epoll_eplt_server.c:38-71 | the level-triggered server can stop if and only if it has echoed everything |
| `Readiness.ReadsShrink` | epoll/epoll_eplt_server.c:38-71 | in every run, while nothing arrives the server takes at most two steps for each waiting byte, and r reads take between r and r * bufSize bytes |
| `Readiness.FullReadsDrain` | epoll/epoll_eplt_server.c:38-71 | in every level-triggered run in which nothing more arrives and reads are full, the server stops if and only if it read n / bufSize times, rounded up, and never reads more often |
| `Readiness.EdgeTriggeredBound` | epoll/epoll_epet_test_server.c:38-71 | at most one buffer is echoed for each arrival |
| `Readiness.EdgeTriggeredLeaves` | epoll/epoll_epet_test_server.c:38-71 | at least the bytes beyond that stay unread |
| `Readiness.EdgeTriggeredDrains` | epoll/epoll_epet_test_server.c:38-71 | for any sequence of writes of a client, every stalled edge-triggered run has echoed everything, if and only if all writes together are no more than every read is known to take: otherwise they can coalesce into one report |
| `Readiness.ReadBounds` | epoll/epoll_epet_test_server.c:58-67 | that bound is the buffer for full reads, and one byte for reads that may be short |
| `Readiness.OneBurst` | epoll/epoll_epet_test_server.c:38-71 | in every edge-triggered run with one arrival and full reads, the stalled server has echoed the first buffer full, so everything if and only if the arrival fits |
| `Readiness.OneBurstRun` | epoll/epoll_epet_test_server.c:46-70 | every burst has such a run |
| `EchoStream.NothingLost` | tcp/echo_client.c:38-43 | received, in flight and held bytes in order are what was written; between messages nothing is left anywhere |
| `EchoStream.ExchangesEcho` | tcp/echo_client.c:38-45 | every finished exchange brought back exactly what was written |
| `EchoStream.ExchangeEnds` | tcp/echo_client.c:40-43 | within an exchange a step is always possible and each reduces the work left |
| `EchoStream.EveryTextIsEchoed` | tcp/echo_client.c:32-46 | for all lines that fit the buffer there is a run that sends them and gets them back |
| `EchoStream.ReadEcho` | tcp/echo_client.c:39-44 | the loop fills the buffer in place with the written bytes, ends with readLen equal to writeLen and terminates the string inside the buffer |
| `EchoStream.EchoAll` | tcp/echo_server.c:47-49 | the server's loop echoes the whole stream |
| `FileTransfer.CopyIsFile` | close/file_client.c:26-28 | the copy is always a prefix of the file, and the file once the end of the stream was seen |
| `FileTransfer.NeverStuck` | close/file_server.c:33-44 | a run can stop if and only if both sides have finished, with an equal copy and a reply received |
| `FileTransfer.EveryStepCounts` | close/file_server.c:33-44 | every step of either side reduces the work left |
| `FileTransfer.ChunkByChunk` | close/file_server.c:33-40 | in every run the server makes length / chunk + 1 writes, all of full chunks but the last |
| `FileTransfer.RunsAreShort` | close/file_server.c:33-44 | no run has more than 2 * length + 6 states |
| `FileTransfer.SendFile` | close/file_server.c:33-43 | the writes make up the file, all full but the last, which is short and may be empty; then the stream is shut down |
| `FileTransfer.ReceiveFile` | close/file_client.c:26-28 | the client stores the whole stream |
| `StoreLog.LogIsShuffle` | tcp/echo_store_server.c:76-79 | the log is a prefix of the pipe writes in order, among which each client's are its echoed chunks but perhaps the last |
| `StoreLog.LogIsBounded` | tcp/echo_store_server.c:55-58 | the log is at most as long as the logger's reads times the buffer |
| `StoreLog.ProcessSteps` | tcp/echo_store_server.c:76-81 | in every run a client's process reads, echoes and writes to the pipe in turn, and leaves only from its read |
| `StoreLog.EveryScriptRuns` | tcp/echo_store_server.c:53-79 | for all chunks of n clients in any order there is a run that echoes and logs them, if the logger reads as often |
| `StoreLog.RunLogger` | tcp/echo_store_server.c:53-58 | the logger's loop stores a prefix of what was written, at least a byte and at most a buffer a read |
| `Handoff.OnePermission` | thread/semaphore.c:15-51 | semaphores and threads between wait and post add up to one, and never are both inside |
| `Handoff.TakenOnceEach` | thread/semaphore.c:30-47 | a take finds the next input, a put happens only when all earlier ones were taken; the sum is that of the taken ones, if and only if no partial sum overflowed |
| `Handoff.NeverStuck` | thread/semaphore.c:30-51 | nothing is possible if and only if both threads have finished, and then the sum is complete, if and only if no partial sum overflowed |
| `Handoff.Run` | thread/semaphore.c:30-51 | under every schedule the two loops end without blocking, and the sum printed is that of all inputs, if and only if no partial sum overflows |

## Left out

- `PoolQuiet.RunConverges`: speaks of runs in which no slot changes its state; what traffic does to the pace is left out.
- `PoolTheorems.SleepingCounters`: at rest every occupied slot has a live server, because a dead one is noticed only by the next scan.
- `CalcWire.ServeConnection`: does not cover counts of 0 or above 255, for which the C programs read uninitialised memory or overrun the client's buffer.
- `CalcWire.Exchange`: says nothing about what the client shows when calc's behaviour is undefined.
- `EventServer.Server.EpollRound`: does not limit the number of events to EPOLL_SIZE.
- `Readiness.EchoConserves`: leaves out the end of the stream, which EventLoop treats.
- `StoreLog.RunLogger`: a full pipe, which would block the clients, is not modelled.
- Slot states are printed and clients greeted (dynamic_pool.c:95-101, 236-247): output only.
- Startup of every program: sockets, addresses, options, arguments, file opening and error exits.
- The q command that ends tcp/echo_client.c, and the limit of five connections of the tcp servers.
- epoll/epoll_epet_server.c: its inner loop never ends and its client sockets block, so it does not drain as intended.
- epoll/epoll_server.c, tcp/echo_mpserver.c, tcp/reuseaddr_echo_server.c, stdIO: the same echo and copy loops again.
- thread/thread3.c, thread/thread4.c: deliberate data races, undefined in C; thread/mutex.c holds its lock for the whole loop.
- http/web_server.c, out-of-band data, UDP, multicast, DNS, signal and fork demonstrations: library calls or single scenarios.
- Partial writes by servers, failing system calls, a full client array, and fairness of the scheduler.
