# skypeernet in Dafny

skypeernet is a peer-to-peer file network in C. This project models its four central mechanisms and some of
the arithmetic around them, and proves what they are for.

1. **Reliable file transport over UDP.** A task cuts a file into parts. Every part is sent as a group of packets,
   queued, retransmitted on a thinning schedule and taken off the queue by acknowledgements. The receiver puts groups
   together by offset, stores them as part files and joins the part files in name order. `Packets`, `Reassembly`,
   `PartNames`, `PartFiles`, `Sender` and `Receiver` hold the code, `SendHistory` and `ReceiverProofs` the invariants
   of the two sides, and `Transport` the composed system: one sender, one receiver and a network that loses, repeats
   and reorders. On top of it, `TaskList` says which files become tasks and when a task is pending, `FlowControl` has
   the queue bound, the order of tasks and the stalls, `SendWindow` exactly when the next part is sent, `SendKeys` the
   keys of the queue, `Schedule` and `Retransmission` the send table and how often packets go out, `Wire` what is on
   the network, `StaleKeys` the keys that a failed clean-up leaves in the queue's index, `Redelivery` exactly when a
   group is delivered, and `FinishedFiles` the way from acknowledgement to the finished file. `Traffic` is the rate
   limiter.
2. **Owner block chains.** `Blocks`, `Chain` (validation, comparison, merging), `Integrity` (what hashes of valid
   transactions, blocks and chains determine), `Replicas` (copies of other owners' chains), `Mining` (the miner thread
   beside the command thread, as an interleaving of small steps) and `Ledger` (what becomes of every transaction).
3. **The indexed send queue.** `LinkedList`, `HashTable` and `IndexedList`: a doubly linked list and a chained hash
   table that agree, although deleting an element re-enters the list and appends to it, and except for the keys of
   elements whose clean-up failed.
4. **In-order tunnelling.** `RingBuffer` and `Tunnel`: a bounded reorder queue in front of a buffer of slots; and
   `Draining`: what of it reaches the socket.

`Base64` and `Base64Text` cover the text encoding, `Jobs` and `JobHistory` the download jobs; `Common` holds shared
types and counting facts.

Code that updates state is a class or a method with loops, proved equal to a function on values (`Recv`, `Resume`,
`Dispatch`, `Merged`, ...). The lemmas are about those functions and about all runs built from them. Hash functions,
the clock, directory listings, memory handed out by `realloc`, the answers of other components and the failures of
callbacks are parameters, so every statement holds whatever they are. C `unsigned` counters wrap around modulo 2^32
in the model. The statements about whole transport runs are for runs in which all indices stay below 2^31, because
from there on `%010d` prints them as negative numbers and the names no longer sort in send order
(`PartNames.PaddedOrder`), and in which no acknowledgement arrives for a stale key, which is explained next.

Where the code does less than one might expect, the model follows the code:

- Tasks can stall: pending, with no packet waiting whose removal would resume them. An empty file at the head does
  it, since reading its first part fails, and cancelling that task does not resume the others.
  `FlowControl.StallsExactly` says for every event when it leaves the tasks stalled, and
  `FlowControl.CancelLeavesStalled` gives a run that ends stalled on a file that is not empty.
- Taking a packet off the send queue runs a clean-up that resumes the tasks. If that fails, because the first file is
  empty, the removal ends before the packet's key leaves the index (src/tcp/src/list.c:133-164): the key is stale. An
  acknowledgement for it that comes once more finds the packet through the index and unlinks it again.
  `IndexedList.SendQueue.ColumnDel` says exactly when list and index agree afterwards, and `IndexedList.LostNode` shows
  that the second removal can drop a packet appended meanwhile. In `Transport` an event of the network is therefore
  not an acknowledgement of a stale key. `StaleKeys.StaleExactly` says for every event when it adds a stale key,
  `StaleKeys.NoStaleKeys` and `StaleKeys.EveryAckMayArrive` that runs without empty files have none and admit every
  acknowledgement, `StaleKeys.WaitingKeysAreNotStale` that waiting packets are never concerned, and
  `StaleKeys.KeyLeftBehind` gives a run that has one.
- A received file is completed only if its parts and the whole of it can be read back, which the code limits to 1 GiB
  of a size kept in an `int`. `FinishedFiles.DeliveredFilesAreCompleted` has this as an exact condition. Parts above
  the limit stay in the directory when joining fails (`FinishedFiles.JoinSettles`).
- A fork at the last block of the destination is taken for a possible merge, and can change the destination although
  the merge then fails. `Chain.UnmergedChangesDst` gives the exact condition, and `Chain.FailedMergeSpoilsDst` two
  valid chains that meet it and leave an invalid one. Every block in such a copy is still valid
  (`Replicas.GroupTransactionsAreValid`), so a transaction shared from it may be mined.
- Validating a transaction without chunks compares its chunk digest with an uninitialised buffer
  (src/transaction/file_add.c:122-124). Such a transaction can be loaded but not made by `init`, since cutting a file
  into chunks refuses an empty file; `Blocks.InitIsValid` therefore asks for a chunk.
- `ht_add` counts an overwritten entry as a new item (`HashTable.Table.Add`).
- A job that becomes complete without a chunk arriving, because the resume timer finds its last chunk on disk or
  because it has no chunks, is not reported (`Jobs.CompletionIsReported`, `Jobs.SilentCompletion`).
- Encoding and decoding the empty string fails (`Base64.RoundTrip`).
- The reorder queue of a tunnel drops its oldest buffer when it is full, even one not handed on yet. If nothing arrives
  twice, everything is handed on exactly if no buffer waits for an earlier one while 100 others arrive
  (`Tunnel.DeliveredExactlyWithin`).
- A tunnelled buffer that is empty would stop the writer for good when its slot comes first. The buffers handed on can
  all be written exactly if no empty one comes before one that is not (`Draining.WrittenExactlyUnblocked`). Cutting
  into packets refuses an empty buffer (`Packets.SendBuffer.SerializeInit`).
- If the creation of the mining thread fails, the mining state stays set for good (`Ledger.MiningStateExactly`), and a
  thread that fails after it has emptied the list takes its transaction with it
  (`Ledger.EveryTransactionIsAccountedFor`).
- A group whose read callback fails is never delivered again, because its cache stays full
  (`Redelivery.FailedReadIsFinal`).
- The check against delivering a group twice is commented out in the code. Delivery is at least once, and every
  delivery is correct.

## Model

| member | source | states |
|---|---|---|
| `Packets.ChunksCover` | src/packet.c:38-56 | every byte of the buffer lies in one packet of the group, which holds that very byte |
| `Packets.ChunksDisjoint` | src/packet.c:38-56 | two packets of a group have disjoint, ordered byte ranges and different packet indices |
| `Packets.GroupPacketsAreInGroup` | src/packet.c:3-36 | a packet is in the list of a group exactly when its fields are those of the position its offset names |
| `Packets.SendBuffer.constructor` | src/packet.c:58-71 | both counters start at zero |
| `Packets.SendBuffer.Chunk` | src/packet.c:38-56 | the loop produces the whole group, one index per packet, the counter wrapping at 2^32 |
| `Packets.SendBuffer.SerializeInit` | src/packet.c:58-71 | an empty buffer is refused without drawing an index; otherwise one group index and one packet index per chunk are used up |
| `Reassembly.AssembleCovers` | src/payload/payload.c:173-186 | whatever order and repetition, the buffer agrees with the original on every range placed so far, never exceeding it |
| `Reassembly.AssembleWhole` | src/payload/payload.c:152-190 | as many packets with distinct indices as the group has, in any order, assemble to exactly the original buffer, whatever realloc left in new memory |
| `Reassembly.RecvBuffer.constructor` | src/payload/payload.c:192-228 | reception starts without caches |
| `Reassembly.RecvBuffer.FindOrAdd` | src/payload/payload.c:195-226 | the cache found is the first for the group and destination; only if none exists is one appended |
| `Reassembly.RecvBuffer.IsReceived` | src/payload/payload.c:159-163 | true exactly for an index among those received |
| `Reassembly.RecvBuffer.AssembleAll` | src/payload/payload.c:173-186 | the loop copies every packet of the cache to its offset, in order of arrival, as the assembly function does |
| `Reassembly.RecvBuffer.PacketRecv` | src/payload/payload.c:152-228 | duplicates change nothing, and a cache becomes available exactly with its last missing index, holding the assembled bytes |
| `PartNames.DigitsOrder` | src/payload/file.c:20-32 | zero-padded numerals of one width compare as strings exactly as their numbers do |
| `PartNames.JoinOrder` | src/payload/file.c:20-32 | names of one shape compare as strings exactly as their number tuples do lexicographically |
| `PartNames.ScanJoin` | src/os.c:273-313 | scanning a printed name gives back every number in it |
| `PartNames.ScanPartName` | src/os.c:273-313 | sscanf recovers from a part's name all six numbers that snprintf wrote, and the sender and task with the shorter format |
| `PartNames.PartNameOrder` | src/tcp/src/list.c:237-257 | directory order of part names is the order of their six numbers |
| `PartNames.PartNameSendOrder` | src/tcp/src/list.c:237-257 | within one task, name order is the order of group indices, which is the order of sending |
| `PartNames.PartPrefixMatches` | src/os.c:372-392 | the duplicate check matches exactly the parts of the same sender, task and group |
| `PartNames.PaddedOrder` | src/payload/file.c:20-32 | name order follows the index as long as it is below 2^31, and an index from 2^31 on sorts before all of those |
| `PartNames.PaddedReads` | src/payload/file.c:20-32 | from 2^31 on the text is the negative number with the same 32 bits |
| `PartFiles.SortNamesSorts` | src/tcp/src/list.c:244-257 | sorting yields a sorted permutation |
| `PartFiles.SortDistinct` | src/tcp/src/list.c:244-257 | distinct names come out strictly increasing, none lost or added |
| `PartFiles.MatchingSelects` | src/os.c:273-313 | the entries selected are exactly those of the task, each once |
| `PartFiles.CollectAll` | src/os.c:146-183 | collecting appends the contents of all parts in order, or stops at the first that cannot be read; exactly the parts before it are deleted |
| `PartFiles.ReadableExactly` | src/utils.c:48-90 | since the size is kept in an int, exactly the files of 1 byte to 1 GiB over a multiple of 4 GiB can be read back |
| `PartFiles.AllOrNone` | src/utils.c:48-91 | if no part is larger than the first, all parts are read, or none because the first is over 1 GiB |
| `PartFiles.JoinPartsOutcome` | src/os.c:273-313 | with all parts there, joining yields their concatenation in sorted order exactly if each of them and the whole can be read back; it deletes those before the first part that cannot |
| `PartFiles.FileReadJoins` | src/payload/file.c:13-43 | reading a part that is not there yet stores it and joins the task that its name, scanned again, belongs to |
| `PartFiles.PartsDir.constructor` | src/os.c:349-352 | the directory starts empty |
| `PartFiles.PartsDir.Exists` | src/os.c:372-392 | true exactly when some file name begins with the prefix |
| `PartFiles.PartsDir.Finalize` | src/os.c:146-183 | the loop appends and deletes file by file, stopping at one that is missing, empty or over-large, and refuses a result that cannot be read back |
| `PartFiles.PartsDir.Join` | src/os.c:273-313 | nothing is touched until the number of matching parts equals the number announced |
| `PartFiles.PartsDir.Read` | src/payload/file.c:13-43 | a part already stored is ignored; a new one is written and joining is tried |
| `Sender.Peer.constructor` | src/task.c:78-106 | no index drawn, no task, nothing queued |
| `Sender.Peer.Transfer` | src/data.c:148-202 | all packets of one group are queued in order, except acknowledgements, which are never queued |
| `Sender.Peer.ResumeTasks` | src/task.c:3-27 | the next part of the first task is sent, and the task is dropped after its last part; fails exactly when that part starts past the end of its file |
| `Sender.Peer.UpdateTasks` | src/task.c:29-37 | sending resumes exactly when the queue is not above the limit and a task is pending, and fails exactly when resuming does |
| `Sender.Peer.Add` | src/task.c:78-106 | a second task for the same file and peer is refused; a new one gets the next index and may start; AcceptedExactly says for whole runs which files are queued |
| `Sender.Peer.CancelTask` | src/task.c:131-154 | the task with the index leaves the list, and the answer says whether there was one |
| `Sender.Peer.Acknowledge` | src/net.c:19-42 | the packet with the key leaves the queue and its clean-up resumes the tasks; an unknown key changes nothing; it fails exactly when the clean-up does, and then the key becomes stale |
| `Sender.Peer.Attempts` | src/net.c:44-55 | a visit counts one attempt, selects by the table, and past the limit removes the packet like an acknowledgement, failing exactly if that leaves a new stale key |
| `SendHistory.PartStartsInside` | src/os.c:73-81 | part i starts inside the file exactly when i is below the number of parts announced |
| `SendHistory.PartsConcat` | src/os.c:44-71 | the first k parts read one after the other are the beginning of the file |
| `SendHistory.AllPartsConcat` | src/os.c:44-81 | all parts together are the file |
| `SendHistory.PidxIdentifies` | src/packet.c:38-56 | among all packets ever sent, a packet index identifies the packet |
| `SendHistory.SendKeeps` | src/data.c:181-202 | sending a message or acknowledgement keeps the sender's invariant: gap-free group numbers, disjoint packet index ranges, each task's logged groups being its first parts in order, all queued packets sent |
| `SendHistory.ResumeKeeps` | src/task.c:3-27 | sending a part keeps the sender's invariant and extends the log of its task by that part |
| `SendHistory.UpdateKeeps` | src/task.c:29-37 | so does a conditional resume |
| `SendHistory.AddTaskKeeps` | src/task.c:78-106 | so does adding a task |
| `SendHistory.CancelKeeps` | src/task.c:131-154 | so does cancelling one |
| `SendHistory.RemoveKeeps` | src/net.c:19-42 | so does taking a packet off the queue, with the resume it triggers |
| `SendKeys.UniqueKeyIdentifies` | src/net.c:28-34 | two keys are equal exactly for the same packet and task index |
| `SendKeys.StepOrdered` | src/net.c:36-55 | every step of the system keeps packet indices increasing along the queue |
| `SendKeys.QueueInSendOrder` | src/data.c:148-179 | in every run the waiting packets stand in the order in which they were cut |
| `SendKeys.WaitingKeysDiffer` | src/net.c:28-42 | in every run no two waiting packets share a key |
| `SendKeys.NewKeysAreFresh` | src/data.c:136-179 | in every run the packets a step sends have keys that no waiting packet has, as the indexed queue needs |
| `Receiver.Peer.constructor` | src/payload/payload.c:240-254 | nothing received, stored or delivered |
| `Receiver.Peer.PayloadRecv` | src/payload/payload.c:240-254 | one arrival: the packet is cached before it is acknowledged, a complete group is read, and its cache is removed only if reading succeeded |
| `ReceiverProofs.FullCacheHasAll` | src/payload/payload.c:160-172 | by counting, a cache with as many indices as its group has packets holds every one of them |
| `ReceiverProofs.RecvDeliversBuffer` | src/payload/payload.c:152-228 | for any interleaving of groups, a cache that becomes available holds exactly the bytes of its group |
| `ReceiverProofs.AllPassedDelivered` | src/payload/payload.c:240-254 | a group all of whose packets were taken in has been delivered |
| `ReceiverProofs.NamesInSendOrder` | src/payload/file.c:20-32 | stored parts of a task that sort one after the other come from groups sent one after the other |
| `ReceiverProofs.InSendOrder` | src/os.c:146-183 | as many stored parts of a task as announced are all of its parts, and in name order they are in the order of sending |
| `ReceiverProofs.JoinedIsFile` | src/os.c:146-183 | their contents in that order make up the file |
| `ReceiverProofs.JoinKeeps` | src/os.c:273-313 | joining keeps the directory genuine and completes a file only with the sender's content |
| `ReceiverProofs.ReadKeeps` | src/payload/file.c:13-43 | so does reading a delivered group, new or repeated |
| `ReceiverProofs.ReceiveKeeps` | src/payload/payload.c:240-254 | every arrival of a sent packet keeps the receiver's invariant, whatever the callback and memory do |
| `ReceiverProofs.HistoryGrows` | src/payload/payload.c:240-254 | the receiver's invariant survives everything the sender may send later |
| `Transport.StepKeeps` | src/payload/payload.c:240-254 | every step of sender, network or receiver but the acknowledgement of a stale key keeps the joint invariant, with packets conserved as waiting, acknowledged or given up |
| `Transport.RunExtends` | src/net.c:36-91 | a run goes on with any further step, so the statements about runs cover every continuation |
| `Transport.RunKeeps` | src/net.c:36-91 | the joint invariant holds throughout every run of such steps |
| `Transport.CompletedFilesAreSentFiles` | src/os.c:273-313 | end to end: in every run under loss, duplication and reordering, every file completed is the file the sender queued under that task |
| `Transport.DeliveriesAreCorrect` | src/payload/payload.c:240-254 | in every run each group handed to a read callback, first or again, holds exactly the bytes sent |
| `Transport.AcksAreTruthful` | src/payload/ack.c:3-45 | in every run an acknowledgement in flight or used is for a packet the receiver has taken in |
| `Transport.AcknowledgedGroupsAreDelivered` | src/net.c:36-55 | in every run without an acknowledgement of a stale key, a group with no packet still waiting or given up was delivered at least once |
| `FlowControl.QueueIsBounded` | src/task.c:3-37 | in every run without an acknowledgement of a stale key, whatever files are queued, at most the send limit plus one part's worth of file packets wait, and none for a negative limit |
| `FlowControl.TasksAreSentInTurn` | src/task.c:3-37 | in every run, whatever files are queued and whatever the limit, a later task sends nothing before each earlier one, unless cancelled, has sent exactly its number of parts |
| `FlowControl.UpdateStalls` | src/task.c:29-37 | an update leaves the tasks stalled exactly when nothing waits and the first file is empty or the limit negative |
| `FlowControl.AddStalls` | src/task.c:78-106 | from every state, adding a task leaves the tasks stalled exactly when nothing waits and the task is a duplicate or the first file is empty or the limit negative |
| `FlowControl.CancelStalls` | src/task.c:131-154 | cancelling leaves the tasks stalled exactly when nothing waits and another task is pending, whatever its file |
| `FlowControl.AckStalls` | src/net.c:19-42 | taking a packet off, by a key that is not stale, leaves the tasks stalled exactly when they were, or when it was the only one and the first file is empty or the limit negative |
| `FlowControl.StallsExactly` | src/task.c:3-37 | for every state with the joint invariant and every event but the acknowledgement of a stale key, the event leaves the tasks stalled if and only if a condition on the sender before it holds |
| `FlowControl.RunStallsExactly` | src/net.c:19-26 | the same for every step of every run of such events |
| `FlowControl.TasksDoNotStall` | src/net.c:19-26 | in every run with no empty file and no negative limit, a pending task implies a waiting packet, whose removal resumes the tasks |
| `FlowControl.CancelLeavesStalled` | src/task.c:131-154 | a run that ends stalled although the one pending file is not empty and the limit not negative |
| `StaleKeys.AckLeavesBehind` | src/tcp/src/list.c:133-164 | taking a packet off leaves its key in the index exactly when the queue without it is within the limit and the first file is empty |
| `StaleKeys.StaleExactly` | src/net.c:36-55 | for every state with the joint invariant and every event, a key is stale afterwards if and only if it was before or the event removes its packet under that condition |
| `StaleKeys.NoStaleKeys` | src/task.c:3-37 | in every run with no empty file, or with a negative limit, no key is ever stale |
| `StaleKeys.EveryAckMayArrive` | src/net.c:36-42 | in these runs the network may deliver every acknowledgement in flight, at any time and any number of times |
| `StaleKeys.StaleAreGone` | src/tcp/src/list.c:133-164 | in every run a stale key belongs to a packet that was sent and no longer waits |
| `StaleKeys.WaitingKeysAreNotStale` | src/net.c:44-55 | in every run no waiting packet has a stale key, so giving up a packet never meets one |
| `StaleKeys.NewKeysAreNotStale` | src/data.c:136-179 | in every run no packet that a step sends has a stale key, so entering it into the index overwrites nothing |
| `StaleKeys.KeyLeftBehind` | src/net.c:19-42 | for every setting with a limit not below zero, a run that ends with a stale key whose acknowledgement can still arrive |
| `TaskList.TasksAreAcceptedCommands` | src/task.c:78-106 | in every run the log of tasks has exactly one entry for each accepted command, in order, with its file and address, and pending tasks bear its name |
| `TaskList.PendingExactly` | src/task.c:3-27 | in every run a task is pending if and only if it was not cancelled and has parts still to send or an empty file |
| `TaskList.AcceptedExactly` | src/task.c:51-88 | in every run a file is queued if and only if no earlier command for the same name and address is still open; then the log gets one entry with this file and address, otherwise nothing changes |
| `TaskList.CancelledSendsNothing` | src/task.c:131-154 | in every run a cancelled task is never pending again and nothing more is sent for it |
| `TaskList.OneFileForTwoPeers` | src/distfs.c:246-263 | a run that ends with one file queued for two peers, both tasks pending |
| `SendWindow.PartSentExactly` | src/task.c:3-37 | in every run an event sends the next part of a task, one part, if and only if it lets tasks go on (an accepted file, a removal or a clean-up), then at most the limit of packets wait, and the task is the first one pending with a file that is not empty |
| `SendWindow.QueueStaysFull` | src/task.c:29-37 | in every run, once more packets wait than the limit, this stays so as long as there is something to send |
| `Wire.NetExactly` | src/net.c:57-91 | in every run a packet is on the network if and only if a visit selected it by the table and was not suspended, or it belongs to an acknowledgement sent |
| `Wire.AcksExactly` | src/payload/ack.c:3-45 | in every run an acknowledgement is under way if and only if a packet with its key has arrived |
| `Wire.AckTakesExactly` | src/net.c:19-42 | in every run an acknowledgement takes off exactly the waiting packet with its key |
| `Redelivery.RecvGathers` | src/payload/payload.c:152-228 | a packet adds its index to what is held of its group and to nothing else; the group is available if and only if it was the last one missing |
| `Redelivery.CachesHoldCollected` | src/payload/payload.c:240-254 | in every run the caches hold of each group exactly the indices arrived since its last successful read |
| `Redelivery.DeliveredExactly` | src/payload/payload.c:240-254 | in every run an event delivers a group, with the bytes sent, if and only if it is the arrival that completes the collection of its packets since the last successful read |
| `Redelivery.FailedReadLeavesAll` | src/payload/payload.c:240-254 | in every run, when the read of a complete group fails, all its indices stay collected |
| `Redelivery.FailedReadIsFinal` | src/payload/payload.c:160-163 | in every run a group whose read failed is never delivered again |
| `FinishedFiles.WholeIsSelected` | src/os.c:273-313 | if all parts of a task are stored, joining counts exactly as many as announced |
| `FinishedFiles.AllOrNoneLead` | src/utils.c:48-91 | of the parts of one task either all can be read back or the first cannot, by the part size and the file size alone |
| `FinishedFiles.JoinSettles` | src/os.c:146-183 | joining does nothing exactly while a part is missing, and fails without removing anything if the first part is over-large; otherwise it removes the parts of that task only and completes the file exactly if it can be read back |
| `FinishedFiles.ReadChanges` | src/payload/file.c:13-43 | reading a group, new or repeated, leaves it stored or its file settled, leaves no task with all its readable parts lying there, completes only what can be read back, and touches no other task |
| `FinishedFiles.RunKept` | src/payload/payload.c:240-254 | in every run without an acknowledgement of a stale key, a delivered part stays stored until its file is settled, no task has all its readable parts lying in the directory, and only files that can be read back were completed |
| `FinishedFiles.DeliveredFilesAreCompleted` | src/os.c:273-313 | in every run without an acknowledgement of a stale key, a file all of whose parts were sent and delivered has been completed with exactly its content if and only if its parts and the whole can be read back, as every file up to 1 GiB can that is not empty |
| `FinishedFiles.FinishedTasksAreCompleted` | src/net.c:36-55 | in every run without an acknowledgement of a stale key, a task no longer pending and not cancelled, with no packet waiting or given up, has its file completed at the receiver with exactly its content, if and only if it can be read back |
| `Schedule.SendTable` | src/config.c:41-57 | refused exactly below 2; otherwise true exactly at 0 and at positive powers of the factor; the step ends at the first power not below the limit, which tells when a C int holds it |
| `Schedule.SendsSoFar` | src/net.c:44-55 | among the first n passes a packet is sent once plus once for every such power below n |
| `Schedule.UnacknowledgedPacket` | src/net.c:44-55 | the verdicts by attempt number: never expired up to the limit, expired at it, and sent once plus once per power below the limit |
| `Schedule.VisitsCount` | src/net.c:44-55 | up to the limit, visits change nothing in the sender but the packet's attempt count |
| `Retransmission.VisitCame` | src/net.c:44-91 | after a visit the visited packet waits with one more attempt, or not at all if its attempts are used up, and every other entry is an old one unchanged or a packet never sent before |
| `Retransmission.RunCounts` | src/net.c:44-91 | in every run, with other events in between, each waiting packet's attempt count is the number of visits to it and determines how often it was selected |
| `Retransmission.GivenUpPackets` | src/net.c:44-55 | in every run a packet given up was visited once more than the limit, selected once plus once per power below the limit, and never waits again |
| `Retransmission.WaitingPackets` | src/net.c:44-55 | in every run a waiting packet was visited at most as often as the limit, and selected once plus once per power below the number of visits |
| `Traffic.Meter.Update` | src/traffic.c:5-22 | negative sizes are refused unchanged; otherwise a window opens, admits or suspends, as SuspendedExactly says for whole runs, and a suspended request is not counted |
| `Traffic.WindowsStayBelowLimit` | src/traffic.c:5-29 | for all request sequences a window admits less than the limit, and windows open at least a second apart |
| `Traffic.AdmittedFromWindow` | src/traffic.c:5-29 | from within a window until a later time: the rest of that window and at most one limit per further second |
| `Traffic.AdmittedBetween` | src/traffic.c:5-29 | the same for an interval that starts anywhere |
| `Traffic.RateBound` | src/traffic.c:5-29 | any interval of T seconds admits fewer than (floor(T) + 2) limits |
| `Traffic.WindowIs` | src/traffic.c:5-22 | in every run the window kept is the one opened by the last request that came a second or more after the one before it, with the bytes passed since |
| `Traffic.SuspendedExactly` | src/traffic.c:13-21 | in every run a request is suspended if and only if it comes less than a second after that opening and would bring the bytes passed since then to the limit |
| `Traffic.BelowLimitNothingIsHeldBack` | src/traffic.c:13-21 | if no stretch of a second asks for the limit, no request is suspended and all bytes asked for are admitted |
| `Blocks.ComputeHashChunks` | src/transaction/file_add.c:3-25 | the loop chains the digest over all chunks in order, and leaves the buffer alone when there are none |
| `Blocks.InitIsValid` | src/transaction/file_add.c:56-136 | a transaction made by init for a file with chunks passes validate, also after it was placed in a block |
| `Blocks.ValidateBlock` | src/block.c:53-97 | accepts exactly blocks with enough zeros, matching proof of work, at most one transaction, all valid and linked; what that guarantees is in the rows of Integrity |
| `Blocks.LockTransactions` | src/block.c:109-122 | the loop links every transaction to the one before and returns the last digest |
| `Blocks.LockLinks` | src/block.c:43-51 | locking valid transactions makes them pass the link check and keeps number, content and order |
| `Integrity.SameChunks` | src/transaction/file_add.c:3-25 | the digest over the chunks determines the chunks and their order, unless the chunk digest collides or takes the empty value it starts from |
| `Integrity.HashDeterminesTransaction` | src/transaction/file_add.c:107-136 | two valid transactions with chunks and the same hash agree in version, time stamp, kind and the whole file, or a digest takes the same value at two arguments |
| `Integrity.InitNamesChunks` | src/transaction/file_add.c:56-98 | a transaction made by init carries all it was made from, and two of them have the same name exactly for the same chunks, unless the chunk digest collides |
| `Integrity.PowDeterminesHeader` | src/block.c:53-70 | two valid blocks with the same proof of work agree in digest, predecessor and nonce, and in the predecessor their transactions name, or the block digest collides |
| `Integrity.LinkDeterminesTransaction` | src/block.c:77-93 | two valid blocks whose transactions have the same link digest have the same predecessor and transaction hash, or the link digest collides |
| `Integrity.PowDeterminesMinedBlock` | src/block.c:43-122 | two mined blocks with chunks and the same proof of work are the same block, or a digest collides |
| `Integrity.TargetExcludesBase` | src/block.c:53-63 | with a positive target no valid block has the hash from which chains start |
| `Integrity.TipDeterminesChain` | src/root.c:212-230 | two valid chains with the same hash have the same length and the same headers throughout, or the block digest collides or reaches the base hash |
| `Integrity.OnlyFilesAreAdded` | src/transaction.c:24-56 | every transaction of a valid chain is of the one known kind and valid |
| `Integrity.AtMostOnePerBlock` | src/block.c:72-75 | a valid chain has at most as many transactions as blocks |
| `Chain.ValidAppend` | src/root.c:18-28 | a valid block that refers to the tip extends a valid chain to a valid chain |
| `Chain.ValidSplice` | src/root.c:141-164 | the rest of one valid chain appended to another valid one with the same last hash is valid |
| `Chain.SharedHashes` | src/root.c:82-113 | the common beginning reaches the end of a chain exactly when its hashes are a prefix of the other's |
| `Chain.BlocksCompare` | src/block.c:124-145 | comparing blocks fails exactly for different predecessors; the winner has more transactions, the destination on a tie |
| `Chain.SamePredecessor` | src/block.c:124-145 | on valid chains that agree so far the next blocks have the same predecessor, so comparing them cannot fail |
| `Chain.DifferenceMeans` | src/root.c:82-113 | equal exactly for equal hash sequences; otherwise the index is the shorter length for a proper prefix, or one past the first differing block; the winner is the longer chain or has more transactions in the last block compared, the destination on a tie |
| `Chain.MergeJoinsPrefixes` | src/root.c:141-164 | merged exactly when one hash sequence is a prefix of the other; then both chains hold the longer one, are valid and have only grown |
| `Chain.UnmergedChangesDst` | src/root.c:115-164 | a merge fails and yet changes the destination exactly when the fork is at its last block, the source goes on beyond it and has more transactions there |
| `Chain.UnmergedChangesSrc` | src/root.c:115-164 | a merge fails and yet changes the source exactly when the fork is at its last block, the destination goes on beyond it and has no fewer transactions there |
| `Chain.MergeFailsExactly` | src/root.c:141-164 | a merge returns an error exactly when the fork is at the last block of the chain that loses there |
| `Chain.FailedMergeSpoilsDst` | src/root.c:115-164 | two valid chains for which this happens and the destination is no longer valid |
| `Chain.UnmergedKeepsDst` | src/root.c:115-164 | with one transaction per block a failed merge leaves the destination as it was |
| `Chain.MergeShape` | src/root.c:115-164 | the verdict and index of the comparison select exactly the blocks that the merge needs |
| `Chain.MergeConfirmed` | src/root.c:141-164 | the comparison after copying reports equality exactly for the merges that succeeded |
| `Chain.ValidateChain` | src/root.c:212-230 | the loop accepts exactly the valid chains |
| `Chain.Root.constructor` | src/root.c:11-16 | an empty chain with the base hash |
| `Chain.Root.BlocksAdd` | src/root.c:18-28 | the block is appended and the stored hash is its proof of work |
| `Chain.Root.Validate` | src/root.c:212-230 | true exactly for a valid chain |
| `Chain.Root.Compare` | src/root.c:82-113 | fails exactly when a chain is invalid, and otherwise finds the difference described by DifferenceMeans |
| `Chain.Root.Mergeable` | src/root.c:115-139 | the verdict for two valid chains, with the comparison it rests on |
| `Chain.Root.AppendFrom` | src/root.c:141-164 | the loop copies the rest of the other chain and keeps the stored hash at the tip |
| `Chain.Root.MergeWith` | src/root.c:141-164 | on valid chains both chains and both results are as the merge function says; otherwise it fails and changes nothing |
| `Replicas.AtMostOneRootPerOwner` | src/group.c:19-33 | after any sequence of deliveries the group holds at most one root per owner |
| `Replicas.DeliveryOnlyAppends` | src/mpeer.c:108-132 | no delivery removes or changes a block of any copy |
| `Replicas.DeliveryChangesExactly` | src/mpeer.c:84-138 | a delivery changes a copy exactly when it is the owner's, both chains are valid, and the one received goes on where the copy ends or wins a fork at its last block; a copy is added exactly for a valid chain of an unknown owner |
| `Replicas.DeliveryKeepsBlocks` | src/mpeer.c:108-132 | a delivery leaves every block of every copy valid if it was so before, even when a merge fails |
| `Replicas.GroupTransactionsAreValid` | src/group.c:35-55 | whatever chains arrive, every block and every transaction that a search of the group can find is valid |
| `Replicas.CopiesStayValid` | src/mpeer.c:108-132 | if all chains received have one transaction per block, every copy stays valid, whatever arrives |
| `Replicas.LongestIsAttained` | src/mpeer.c:108-132 | the length used below is the maximum over the valid snapshots received |
| `Replicas.ReplicasConverge` | src/mpeer.c:108-132 | for snapshots of append-only chains in any order and repetition, each copy equals its owner's longest snapshot so far, is valid, and exists exactly for owners heard of |
| `Replicas.MergedHashes` | src/root.c:141-164 | merging two beginnings of one chain leaves the longer one |
| `Replicas.Group.constructor` | src/group.c:12-17 | an empty group |
| `Replicas.Group.FindRoot` | src/group.c:19-33 | the first root of the owner, or none |
| `Replicas.Group.MergeAt` | src/mpeer.c:108-132 | merging touches only the chosen root |
| `Replicas.Group.AddRoot` | src/group.c:187-196 | the chain is added under its owner and no other root changes |
| `Replicas.Group.Receive` | src/mpeer.c:84-138 | an invalid chain is ignored, an unknown owner's chain added, a known one merged |
| `Mining.StepKeeps` | src/distfs.c:141-244 | every step of either thread keeps the invariant |
| `Mining.RunKeeps` | src/distfs.c:3-75 | the invariant holds under every interleaving |
| `Mining.OneMinerOnePending` | src/distfs.c:222-244 | under every interleaving at most one miner lives, only while the mining state is set, and at most one transaction is pending |
| `Mining.LocalChainIsSafe` | src/distfs.c:169-220 | under every interleaving, also with chains arriving and transactions shared from any of the copies, the local chain is valid, has only grown, by what the rows of Ledger say, and each block mined carries exactly one valid transaction, linked, with the smallest nonce that meets the target |
| `Ledger.EveryTransactionIsAccountedFor` | src/distfs.c:169-220 | under every interleaving the transactions brought in, less those a failing thread held, are in order those of the blocks added to the chain, followed by the one held by the thread or in the list, if any |
| `Ledger.FailureTakesTheLast` | src/distfs.c:141-149 | under every interleaving a failing thread that holds a transaction holds the one brought in last, which is then lost |
| `Ledger.ChainGrowsByAppends` | src/root.c:18-28 | under every interleaving the chain has one block more for every time a thread appended one |
| `Ledger.MiningStateExactly` | src/distfs.c:222-244 | under every interleaving the mining state is set if and only if a thread is being created or lives, or the creation of one has failed before |
| `Ledger.NewBlockExactly` | src/distfs.c:214-217 | under every interleaving there is something to advertise if and only if a thread has finished since the last time |
| `Ledger.CopiesAreDeliveries` | src/mpeer.c:84-138 | under every interleaving the copies of other chains are the loaded ones with all chains received delivered in order |
| `Ledger.MiningGoesThrough` | src/distfs.c:15-41 | from every quiet state, adding a file and mining can be carried through: the chain has one block more, with the new transaction and the smallest nonce that meets the target, and the state is quiet again |
| `HashTable.HtKey` | src/tcp/src/hashtable.c:38-45 | the loop computes a bucket in range from the absolute values of the characters |
| `HashTable.BucketsAddUp` | src/tcp/src/hashtable.c:38-45 | a character lies in the bucket of its absolute value and buckets of concatenated keys add up, which determines every bucket |
| `HashTable.AssocUpdate` | src/tcp/src/hashtable.c:47-90 | replacing an entry changes the value of its key only |
| `HashTable.AssocPush` | src/tcp/src/hashtable.c:47-90 | a new first entry adds its key only |
| `HashTable.AssocRemove` | src/tcp/src/hashtable.c:92-111 | unlinking an entry removes its key only |
| `HashTable.Table.constructor` | src/tcp/src/hashtable.c:8-18 | no key is stored |
| `HashTable.Table.Add` | src/tcp/src/hashtable.c:47-90 | the table as a map is updated at the key; the item counter grows even when a value is replaced |
| `HashTable.Table.Remove` | src/tcp/src/hashtable.c:92-111 | the key leaves the map, and success says whether it was there |
| `HashTable.Table.Find` | src/tcp/src/hashtable.c:113-125 | the value the map has for the key, if any |
| `LinkedList.List.constructor` | src/tcp/src/list.c:17-22 | an empty list |
| `LinkedList.List.Add` | src/tcp/src/list.c:77-94 | a new node at the end; head, tail, both links and size again describe one sequence |
| `LinkedList.List.AddHead` | src/tcp/src/list.c:115-131 | a new node at the front, likewise |
| `LinkedList.List.Detach` | src/tcp/src/list.c:133-144 | for any node, in the list or not: its neighbours, or else head and tail, are joined past it by its own links |
| `LinkedList.List.Unlink` | src/tcp/src/list.c:133-144 | exactly this node is gone, likewise, and it keeps its own links |
| `LinkedList.List.Del` | src/tcp/src/list.c:166-176 | the first node with the data is gone; fails exactly when there is none |
| `LinkedList.List.QueueAdd` | src/tcp/src/list.c:259-268 | the element is in front, and the last one was dropped exactly if 100 were there |
| `IndexedList.AgreeAfterAdd` | src/tcp/src/list.c:96-105 | entering a new node under a fresh key keeps list and index in agreement, but for the stale keys there were |
| `IndexedList.AgreeAfterUnlink` | src/tcp/src/list.c:133-164 | unlinking a node and forgetting its key keeps them in agreement |
| `IndexedList.SendQueue.constructor` | src/tcp/src/list.c:51-67 | an empty list and an empty index agree |
| `IndexedList.SendQueue.ColumnAdd` | src/tcp/src/list.c:96-105 | the node is last and found under its key, and stale keys stay the only disagreement |
| `IndexedList.SendQueue.AddAll` | src/task.c:3-37 | several elements are appended in order with the same guarantee, and the entries under stale keys stay |
| `IndexedList.SendQueue.DelItem` | src/tcp/src/list.c:133-144 | unlinking runs a clean-up that appends to the same list and may fail; links and index agree but for the deleted key, which still leads to the node |
| `IndexedList.SendQueue.ColumnDel` | src/tcp/src/list.c:146-164 | the element with the key is gone and what the clean-up appended is at the end; list and index agree afterwards exactly when the key was absent or the clean-up succeeded, and otherwise but for that key |
| `IndexedList.SendQueue.RemoveAgain` | src/tcp/src/list.c:146-164 | removing a stale element that had been alone in the list leaves head and tail null, whatever was appended since |
| `IndexedList.LostNode` | src/tcp/src/list.c:133-164 | a failed removal, an append and a second removal of the first key: the appended node is in the index and no longer in the list |
| `IndexedList.SendQueue.ColumnFind` | src/tcp/src/list.c:299-313 | for a key that is not stale, finds an element exactly when one with the key is in the list |
| `IndexedList.SendQueue.Callback` | src/net.c:57-91 | a callback that removes the current node and appends keeps list and index in agreement, but for the key of that node if its clean-up fails, which is then the result |
| `IndexedList.SendQueue.Visit` | src/tcp/src/list.c:186-199 | the successor read before the callback is still the next unvisited node after it |
| `IndexedList.SendQueue.Round` | src/tcp/src/list.c:186-199 | one round visits one more node and leaves survivors followed by the unvisited nodes, and no new stale key if the map goes on |
| `IndexedList.SendQueue.Map` | src/tcp/src/list.c:186-199 | unless stopped, every node present at the start is visited once and in order, followed only by nodes appended meanwhile; the list is the survivors and the rest; list and index agree but for the key of the last node visited, if its removal failed |
| `RingBuffer.AppendPending` | src/tcp/src/ringbuffer.c:91-121 | appending a slot appends its bytes to what is pending |
| `RingBuffer.SkipPending` | src/tcp/src/ringbuffer.c:36-59 | what is offered is the front of what is pending, and skipping removes exactly that much |
| `RingBuffer.Buffer.constructor` | src/tcp/src/ringbuffer.c:22-34 | nothing is pending |
| `RingBuffer.Buffer.SendNext` | src/tcp/src/ringbuffer.c:22-34 | the unsent rest of the first slot |
| `RingBuffer.Buffer.SendSkip` | src/tcp/src/ringbuffer.c:36-59 | the offset advances and a finished slot is unlinked |
| `RingBuffer.Buffer.SendAppend` | src/tcp/src/ringbuffer.c:91-121 | the slot is linked at the tail |
| `Tunnel.DispatchInOrder` | src/packet.c:149-167 | one dispatch hands on the buffers of consecutive indices, each once, and leaves none that is due |
| `Tunnel.AppendAllPending` | src/packet.c:149-167 | buffers handed on become pending in that order |
| `Tunnel.RunKeeps` | src/packet.c:149-182 | in every run written and pending bytes make up the consecutive buffers from the first arrival to the last dispatched |
| `Tunnel.WrittenInOrder` | src/packet.c:149-182 | for every arrival sequence and every pattern of partial writes the bytes written are a prefix of the buffers t0, t0+1, ..., each once; the queue never exceeds 100 |
| `Tunnel.NothingDueWaits` | src/packet.c:149-167 | in every run no queued entry is the next one due |
| `Tunnel.RunHoldsAll` | src/tcp/src/list.c:259-268 | while at most 100 indices arrive, none is pushed out of the queue |
| `Tunnel.ConsecutiveArrivalsAreDelivered` | src/packet.c:149-182 | at most 100 consecutive indices, the first leading and the rest in any order and repetition, are all handed on |
| `Tunnel.StaysQueued` | src/tcp/src/list.c:259-268 | in every run a buffer stays in the queue, each arrival moving it back by one place at most, until 100 others have arrived after it |
| `Tunnel.HandedOnArrived` | src/packet.c:149-167 | in every run everything from the first arrival to the last index handed on has arrived |
| `Tunnel.LongRunsAreDelivered` | src/packet.c:149-182 | runs of any length: consecutive indices, the first leading, in any order and repetition in which no buffer waits for an earlier one while 100 others arrive, are all handed on in order |
| `Tunnel.InOrderArrivalsAreDelivered` | src/packet.c:149-182 | however many buffers arrive in order, all are handed on |
| `Tunnel.PlaceInQueue` | src/tcp/src/list.c:259-268 | if nothing arrives twice, the place of a buffer in the queue is the number of arrivals after it, and from 100 on it is gone |
| `Tunnel.DeliveredExactlyWithin` | src/packet.c:149-182 | if nothing arrives twice, consecutive indices of which the first leads are all handed on if and only if no buffer waits for an earlier one while 100 others arrive |
| `Draining.OfferedExactly` | src/tcp/src/async_client.c:107-150 | in every run the socket is offered something if and only if a buffer handed on, with no empty one up to it, is not yet written |
| `Draining.NothingPassesAnEmptyBuffer` | src/tcp/src/async_client.c:127-132 | in every run nothing behind an empty buffer is written, once that was handed on |
| `Draining.WrittenExactlyUnblocked` | src/tcp/src/ringbuffer.c:36-59 | every run can go on so that the first m buffers handed on are all written, if and only if no empty one among them comes before one that is not |
| `Tunnel.Connection.constructor` | src/packet.c:169-182 | an idle connection |
| `Tunnel.Connection.TcpSent` | src/packet.c:118-138 | true exactly when an entry with the index is queued |
| `Tunnel.Connection.FindDue` | src/packet.c:149-167 | the first undispatched entry that is next, or any if nothing was dispatched |
| `Tunnel.Connection.HandOn` | src/packet.c:149-167 | the entry is marked, becomes the last index and goes to the ring |
| `Tunnel.Connection.TcpDispatch` | src/packet.c:149-167 | the recursion ends, with queue, last index and ring as the dispatch function says |
| `Tunnel.Connection.TcpSend` | src/tunnel.c:59-61 | a known index changes nothing; a new one is queued, pushing out the oldest of 100, and everything due is handed on |
| `Tunnel.Connection.AsyncWrite` | src/tcp/src/async_client.c:107-150 | the bytes the socket took are the first ones offered, and only they are skipped |
| `Base64.WrapNewlines` | src/base64.c:57-72 | wrapping puts line feeds after every 72 characters and at the end, and nowhere else |
| `Base64.EncodedNewlines` | src/base64.c:57-72 | the same for the text the encoder produces |
| `Base64.EncodedLines` | src/base64.c:57-72 | no line of the encoder's text is longer than 72 characters, and the last one is ended |
| `Base64.LinesWrap` | src/base64.c:46-72 | the encoder's running line count breaks the text where wrapping all of it would |
| `Base64.RefusedLengths` | src/base64.c:34-38 | the overflow check refuses exactly lengths from 2^62 on, for which four times the length wraps around |
| `Base64.BufferSuffices` | src/base64.c:34-73 | characters, line feeds and terminator fit the size computed |
| `Base64.EncodeInto` | src/base64.c:42-76 | all writes are inside the buffer, which holds the text and a terminator |
| `Base64.Encode` | src/base64.c:26-81 | the wrapped text, or failure exactly for refused lengths |
| `Base64.CountSignificant` | src/base64.c:106-110 | the first loop counts the characters that are not skipped |
| `Base64.DecodeInto` | src/base64.c:119-147 | all writes are inside the buffer; the bytes are those of the blocks up to the first padded one |
| `Base64.Decode` | src/base64.c:94-152 | fails exactly for no characters, a number not divisible by four, or more than two pads in a block reached; otherwise the bytes of the blocks |
| `Base64.SkippedCharacters` | src/base64.c:119-124 | characters outside the alphabet may be inserted anywhere without changing the result |
| `Base64.RoundTrip` | src/base64.c:26-152 | decoding an encoded string gives it back, for every string but the empty one, which is refused |
| `Base64Text.SignificantExactly` | src/base64.c:94-104 | the decoder takes exactly the 64 characters of the RFC 4648 table, each for its number, and the equals sign |
| `Base64Text.TextByPosition` | src/base64.c:42-76 | for every byte string and every position, the character is the one of the table for the next six bits, or the equals sign where no byte is left |
| `Base64Text.DecodesByPosition` | src/base64.c:94-152 | for every text: failure exactly for no significant characters, a number not divisible by four, or more than two equals signs in the first group that has one; otherwise every byte is the next eight bits |
| `Jobs.SetStateKeeps` | src/job.c:20-48 | a change of state keeps all four counters exact |
| `Jobs.StartKeeps` | src/job.c:164-189 | so does starting a chunk, on every path including the failing ones |
| `Jobs.ResumeKeeps` | src/job.c:202-231 | so does the resume loop, stopped anywhere |
| `Jobs.CallbackWhenComplete` | src/job.c:313-357 | an arriving chunk calls the done callback exactly when all other chunks of its job are done |
| `Jobs.StepKeeps` | src/job.c:202-357 | every operation keeps the invariant, with at most one job per file |
| `Jobs.RunKeeps` | src/job.c:62-357 | the invariant holds after every sequence of operations |
| `Jobs.DoneIsNeverLeft` | src/job.c:202-231 | over any stretch of any run a job keeps its chunks, and a finished chunk stays finished |
| `Jobs.CountersAreExact` | src/job.c:20-48 | in every run each counter is the number of chunks in its state, and the four add up to all chunks |
| `Jobs.ReportedAreComplete` | src/job.c:347-355 | in every run a job for which the callback was called is complete, then and later |
| `Jobs.CompletionIsReported` | src/job.c:313-357 | a step after which a job is complete that was not before, or was not there, reports it exactly when it is the arrival of a chunk; adding does so only for a file without chunks |
| `Jobs.SilentCompletion` | src/job.c:164-177 | a run in which a job becomes complete and the callback is never called |
| `JobHistory.JobsMatch` | src/job.c:62-109 | after every sequence of operations there is a job for a file if and only if it was asked for and not given up since, with the chunks named when it was asked for |
| `JobHistory.ArrivalMarksExactly` | src/job.c:313-345 | a chunk that arrives is done in the first job that has it, at its first place, and no other chunk of any job changes |
| `JobHistory.UnknownChunkChangesNothing` | src/job.c:313-345 | a chunk that no job has changes nothing |
| `JobHistory.ChunkFailsExactly` | src/job.c:164-226 | handling a chunk fails if and only if a lookup, the dump, the clock or the request it needs fails, and then it is left as it was set before that |
| `JobHistory.RoundHandlesAll` | src/job.c:202-231 | a round that goes through leaves no chunk waiting: started ones are done if on disk, else received from the peer that has them, or not found exactly if no peer is known; the others are untouched |
| `JobHistory.TimerResumesJobs` | src/job.c:202-231 | every job gets its round exactly as long as the rounds of all jobs before it go through |
| `JobHistory.ReceivingHasPeer` | src/job.c:164-189 | after every sequence of operations a chunk being received has a peer |
| `Jobs.Job.constructor` | src/job.c:85-104 | all chunks wait, and the counter of waiting chunks is their number |
| `Jobs.Job.Counter` | src/job.c:20-38 | only the counter of the chunk's state moves |
| `Jobs.Job.EnterState` | src/job.c:40-48 | one counter down, one up, one chunk changed |
| `Jobs.Job.StartChunk` | src/job.c:164-189 | done if the file is there, not found if nobody ever had it, else receiving; failures keep what was set before them |
| `Jobs.Job.VisitChunk` | src/job.c:212-226 | new chunks start, idle ones restart if their peer is gone, finished ones are left alone |
| `Jobs.Job.ResumeChunks` | src/job.c:206-228 | the loop visits the chunks in order and stops at the first failure |
| `Jobs.JobList.constructor` | src/job.c:62-109 | no jobs |
| `Jobs.JobList.AddJob` | src/job.c:62-109 | nothing changes for a finished file, a file that already has a job, or one unknown to the remote group; otherwise a job is appended, and both answers say so |
| `Jobs.JobList.RemoveJob` | src/job.c:233-247 | the job with the name leaves the list, and the answer says whether there was one |
| `Jobs.JobList.ResumeJobList` | src/job.c:202-231 | the jobs are resumed in order up to the first failure |
| `Jobs.JobList.FindChunk` | src/job.c:321-340 | the first job that has the chunk and the chunk's first place in it, or none |
| `Jobs.JobList.UpdateJob` | src/job.c:313-357 | the first job with the chunk records it, and the callback is called as CallbackWhenComplete says; a chunk is unwanted exactly when no job has it, and then changes nothing |

## Left out

- Sockets, libev watchers, pipes, the command line, syslog, JSON and the plugins: only the steps they trigger are modelled.
- SHA-256, AES and RSA: hashes are arbitrary functions of the fields they are computed from, and no claim rests on the absence of collisions; `Integrity` names the collision instead. That the fields are printed one after the other without separators, so that different fields can give the same text, counts as a collision there.
- JSON save and load of blocks, transactions and jobs: a chain received is a chain value.
- Proxy forwarding, shadow routing, whitelists and authentication: proxied packets keep foreign indices, so the transport theorems are for one sender per receiver, without proxies.
- The acknowledgement's own packet format: an acknowledgement in flight is the pair of task and packet index it carries. That acknowledgements are themselves delivered to a read callback is not modelled on the sender's side.
- Packet headers and digests (`packet_set`, `packet_get`, `serialize_validate`): a packet is a record, and corrupted packets count as lost. The payload size 334 assumes the header layout of a 64-bit machine.
- Allocation failures, and failing disk writes or directory reads in the transport: the model has failing read callbacks and unreadable parts, not failing writes.
- Foreign files in the parts directory: the directory of the transport runs holds only what the receiver wrote. `sscanf` is modelled on text that starts with a digit, so leading blanks, signs and `0x` are not.
- Retransmission in `Transport`: passes visit arbitrary queue positions, which allows more runs than the timer produces.
- Termination of mining, which depends on the hash: the nonce loop is a step that may repeat forever.
- Data races inside one step of `Mining`: each access to the shared state is one atomic step.
- Multi-column lists, and `ht_items` as an exact count: the code does not provide them. `IndexedList` has one column, as the send queue does.
- Sender.Peer.Acknowledge: an acknowledgement of a stale key is excluded, and with it the runs of `Transport` that have one. What the code then does to the links is in IndexedList.SendQueue.RemoveAgain.
- Sender.Peer.Attempts: a packet with a stale key is excluded; StaleKeys.WaitingKeysAreNotStale shows that no visit meets one.
- Transport.StepKeeps: not for the acknowledgement of a stale key, nor are the statements about runs of `Transport` that rest on it (Transport.AcknowledgedGroupsAreDelivered, FinishedFiles.FinishedTasksAreCompleted, FlowControl.QueueIsBounded, FlowControl.StallsExactly and the others).
- IndexedList.SendQueue.RemoveAgain: only for an element that was alone in the list when its first removal failed.
- Tasks that delete their file once it is sent (src/task.c:39-47): a file neither changes nor disappears while it is queued. A file that disappears makes the clean-up of a removed packet fail like an empty one, and leaves a stale key.
- HashTable.Table.Add: bucket chains are sequences held in an array, so aliasing between bucket entries is not captured.
- Tunnel.Connection.TcpSend: the reorder queue is a sequence whose operation is the one proved for LinkedList.List.QueueAdd, so aliasing between its nodes is not captured; the first packet of a new endpoint connection, sent without the check for a known index, meets an empty queue.
- IndexedList.SendQueue.Map: the callback is a script of what it does at each call, and the result tells stopping from reaching the end, which the C function does not.
- Traffic.Meter.Update: times are whole milliseconds instead of floating point seconds.
- Blocks.ValidateBlock: the uninitialised digest of a transaction without chunks is one arbitrary value for the whole run, while in the code it may differ from call to call.
- Jobs.JobList.AddJob: the search of the remote group and the check for a finished copy are its arguments.
- Jobs.JobList.UpdateJob: says that a chunk is unwanted, but the deletion of its file and the list of rogue peers are not modelled.
- Job finalisation (decrypting the chunks of a finished job into one file), job dumps, the comparison of two groups, and the list of seals that no code uses.
