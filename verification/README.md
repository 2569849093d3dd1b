# A Dafny model of the Redis core: cluster, append only file, blocked clients, slot index, bit operations

The project models five parts of the server and proves what they promise, for every input, every
interleaving and every run.

* **Cluster** (`src/cluster.c`). Nodes exchange headers, updates and vote requests that may be lost, repeated
  and reordered, and votes that may be lost and reordered (`ClusterEpochs`, `ClusterElection`,
  `ClusterCollision`, `ClusterProgress`, `ClusterState`). The slot table and the per-node bitmaps are one class (`ClusterBitmap`,
  `ClusterClaims`, `ClusterSlots`), which also keeps the lists of replicas and failure reports
  (`ClusterReplicas`). Request routing is `ClusterRouting`; a slot that migrates while clients follow
  redirections is `ClusterMigration`.
* **Append only file** (`src/aof.c` with `src/db.c`, `src/expire.c`, `src/multi.c`, `src/t_string.c`). Text of
  the log and its loader (`AofBytes`, `AofCodec`, `AofLoad`), the file that is written to again after a load
  (`AofRepair`), flushing (`AofFlush`), the rewrite buffer and the two processes of a background rewrite
  (`AofRewrite`, `AofHandoff`), the dataset and what replaying a command does to it (`AofData`), the commands a
  rewrite emits (`AofRebuild`, `AofSnapshot`), the translation of relative expire times (`AofTranslate`),
  transactions in the log (`AofTurns`), and the composition of all of these (`AofRecovery`). What commands other
  than those a rewrite emits do to a database is a parameter, any function of database and arguments.
* **Blocked clients** (`src/blocked.c`, `src/t_list.c`): `BlockedIndex`, `BlockedServe`, `BlockedQueue`,
  `BlockedOrder`, `Blocked`, `BlockedLoop`.
* **Slot-to-keys index** (`src/db.c`): `SlotIndex`, `SlotKeys`.
* **Bit operations** (`src/bitops.c`): `BitCount`, `BitPos`, `BitOp`, `BitField`, `BitWords`,
  `BitOverflow`.

Code that changes state in place is a class or a method on arrays, proved equal to a function on values;
the theorems are about those functions. System calls, clocks and the peers of a node are parameters: a
`write` is a script of outcomes, a clock reading is an argument, the hash of a key is any function.

Where a promise does not hold of the code as written, the code is kept, an input that breaks it is exhibited,
and the exact condition is proved:

* Votes are filtered by `senderCurrentEpoch >= failover_auth_epoch` only. A vote counted after the counter was
  reset and before the next epoch was chosen gives one epoch two winners, also when the failed master, which counts
  as a voter, never answers (`UntimelyAckBreaksSafety`); with no such vote an epoch has one winner
  (`ElectionSafety`). For each delivery the condition is exact for the invariant that the counter counts voters
  of the current attempt (`AckKeepsElectionIff`), not for two winners: a vote counted too early may still be one
  too few.
* Merging slot claims does not depend on their order iff the current owner gives way: an owner that announced a
  newer epoch without the slot keeps it (`OrderIndependentIff`, `StaleOwnerKeeps`, `OrderMatters`).
* After a load, what is logged next can be lost. The log is not switched off during a load (the line is commented
  out), so each transaction that is replayed feeds a MULTI that no EXEC follows: a complete log of one
  transaction is enough (`CommittedTransactionSwallows`). And after a cut inside a command the loader truncates at
  that command even when a MULTI is open before it (`CutTransactionSwallows`). Nothing is lost iff the file keeps
  no open transaction and no closed one holds a command that is neither read-only nor administrative
  (`RepairIsSafeIff`, `ProbeIsLost`).
* A command and its log entry agree iff both used one clock reading (`CommandReplaysIff`, `LateFeedMovesExpire`),
  and the command is no INCRBYFLOAT on a string with an expire time: it is logged as SET, which drops the time
  (`FloatForgetsExpire`).
* A rewrite drops an expire time of -1, the value that means "none" (`SnapshotIsExactIff`); a SETEX whose
  milliseconds overflow can store it (`OverflowIsNotSaved`).
* setKey signals a key only when it creates it. Overwriting a string by a list leaves a client that waits for the
  list asleep (`OverwriteLeavesClientAsleep`, and exactly when: `SetWakesIff`). handleClientsBlockedOnKeys
  then leaves waiting exactly those who were asleep before (`HandleClientsBlockedOnKeys`).
* Saturating SET of a very negative number into a signed field, or of any negative number into an unsigned one,
  stores the largest value (`SignedSetSaturatesIff`, `SmallestSaturatesToLargest`, `UnsignedSetSaturatesIff`,
  `MinusOneSaturatesToLargest`).
* A negative number in a signed field of 64 bits, and wrapping in one, shift a 64-bit number by 64, which C leaves
  undefined. Reading is right whatever comes out iff the width is smaller or the number is not negative or is -1
  (`ReadIsExactIff`, `MinusTwoReadsAsMinusOne`), wrapping iff the width is smaller or the
  result is 0 or -1 (`WrapSignedIsIff`), and incrementing iff the shifts cannot matter (`IncrIsExactIff`).
* ASKING without an ASK from the source can put a key on both nodes (`UnsolicitedAsking`,
  `UnsolicitedSetDuplicates`).

## Model

| member | source | states |
|---|---|---|
| `ClusterEpochs.MaxEpochIsCurrent` | src/cluster.c:969-982 | under the epoch bound the maximum that clusterGetMaxEpoch computes is currentEpoch itself |
| `ClusterEpochs.FreshEpochIsAbove` | src/cluster.c:1013-1030 | a bump or collision move takes an epoch above every epoch the node knows, and keeps the bound |
| `ClusterEpochs.EpochBoundStep` | src/cluster.c:1703-1714 | every step of every node keeps: no known or in-flight configEpoch exceeds the currentEpoch that goes with it |
| `ClusterEpochs.EpochBoundAlways` | src/cluster.c:2071-2087 | the bound holds in every reachable state, whatever packets are lost, repeated or reordered |
| `ClusterElection.AckKeepsElectionIff` | src/cluster.c:2046-2058 | delivering an ACK keeps the election invariant, in which the counter counts distinct voters of the current attempt, iff it is not counted between the counter reset and the new epoch |
| `ClusterElection.ElectionInvAlways` | src/cluster.c:2707-2808 | in every timely run votes are unique per epoch and never ahead of lastVoteEpoch, ACKs answer votes, counters count distinct voters of the current attempt |
| `ClusterElection.QuorumsMeet` | src/cluster.c:3097-3097 | two sets of size/2+1 voters share a voter |
| `ClusterElection.ElectionSafety` | src/cluster.c:2947-3116 | in every timely run two wins of one election epoch are wins of one replica |
| `ClusterElection.UntimelyAckBreaksSafety` | src/cluster.c:3019-3089 | a reachable state in which both replicas of a failed master that never acts won the same epoch, each with one vote and an old ACK counted after the reset |
| `ClusterCollision.MovesIff` | src/cluster.c:1078-1093 | a node moves iff epochs collide and its name is the smaller one, and then to an epoch nobody has |
| `ClusterCollision.PingSeparates` | src/cluster.c:1990-1997 | a current PING of a master with a greater name leaves the two with different epochs |
| `ClusterCollision.MoveAddsOneEpoch` | src/cluster.c:1085-1092 | each move adds exactly one distinct epoch |
| `ClusterCollision.ResolutionTerminates` | src/cluster.c:1990-1997 | N masters make at most N-1 moves, in whatever order they meet |
| `ClusterCollision.SettledIffDistinct` | src/cluster.c:1032-1077 | nobody has to move iff all epochs are distinct |
| `ClusterCollision.GreatestNeverMoves` | src/cluster.c:1078-1084 | the greatest name of a colliding group keeps its epoch through every run |
| `ClusterState.EpochState.ProcessHeader` | src/cluster.c:1700-1714 | currentEpoch and the sender's configEpoch become the maxima, so neither is below what the packet says |
| `ClusterState.EpochState.ProcessPing` | src/cluster.c:1990-1997 | both epochs become the maxima, and our configEpoch becomes a fresh one exactly when the sender announces, as its latest, the very epoch we have and its name is greater |
| `ClusterState.EpochState.HandleConfigEpochCollision` | src/cluster.c:1078-1093 | a new currentEpoch is taken as configEpoch iff two masters collide and our name is the smaller |
| `ClusterState.EpochState.ProcessUpdate` | src/cluster.c:2071-2087 | afterwards the node it is about is known with an epoch at least as great as the announced one |
| `ClusterState.EpochState.GetMaxEpoch` | src/cluster.c:969-982 | the scan returns an upper bound of all known epochs that is one of them |
| `ClusterState.EpochState.BumpConfigEpochWithoutConsensus` | src/cluster.c:1013-1030 | bumps iff the node has no epoch or not the greatest |
| `ClusterState.EpochState.SendFailoverAuthIfNeeded` | src/cluster.c:2707-2808 | a vote is granted iff we vote, the request is for a failed or forced master we know, is not older than our epoch, we have not voted in it nor lately for that master, and no claimed slot has a newer owner; it is then recorded |
| `ClusterState.EpochState.ProcessAuthAck` | src/cluster.c:2046-2058 | the counter grows by one iff the ACK comes from a known voter whose epoch is not below the election's |
| `ClusterState.EpochState.HandleSlaveFailover` | src/cluster.c:2947-3116 | when it wins, asks, schedules or waits, in terms of the inputs and a majority of votes; the winner's configEpoch is raised to the epoch of the election and no other epoch changes |
| `ClusterProgress.HeaderTeaches` | src/cluster.c:1700-1714 | after a packet of a known sender the node knows at least its epochs |
| `ClusterProgress.PingInforms` | src/cluster.c:1990-1997 | from any cluster, two steps let any node know at least the epochs another has |
| `ClusterProgress.UpdateInforms` | src/cluster.c:2071-2087 | and at least what that node knows of a third one |
| `ClusterProgress.EpochsNeverFall` | src/cluster.c:1700-1714 | along every run no node's current, vote or configuration epochs fall |
| `ClusterProgress.WinRaisesEpoch` | src/cluster.c:3097-3116 | a win leaves the replica with a configEpoch not below the election's |
| `ClusterProgress.WinnersKeepTheirEpoch` | src/cluster.c:3097-3116 | in every reachable cluster each winner's configEpoch is at least the epoch it won |
| `ClusterProgress.FailoverTakesOver` | src/cluster.c:1531-1625 | a winner whose epoch is above the other claims ends up owning the slot it announces at every node that hears all claims, in any order |
| `ClusterProgress.QuorumElects` | src/cluster.c:2947-3116 | from a cluster where a majority can still vote, some run elects the replica |
| `ClusterBitmap.SetBitAdds` | src/cluster.c:3634-3638 | setting a bit adds exactly that slot to the set of slots |
| `ClusterBitmap.ClearBitRemoves` | src/cluster.c:3641-3645 | clearing a bit removes exactly that slot |
| `ClusterClaims.KnownClaimMergesToNothing` | src/cluster.c:1929-1944 | a claim equal to the stored bitmap merges to the same table, so skipping the merge is sound |
| `ClusterClaims.RebindRaisesEpoch` | src/cluster.c:1549-1591 | every change of owner is to a strictly greater epoch |
| `ClusterClaims.HighestClaimWins` | src/cluster.c:1531-1591 | whatever the order and repetition of claims, a slot whose owner gives way ends with its highest claimant |
| `ClusterClaims.StrongOwnerKeeps` | src/cluster.c:1556-1575 | an owner with an epoch not below any claim keeps the slot through every run |
| `ClusterClaims.StaleOwnerKeeps` | src/cluster.c:1556-1575 | otherwise there is a complete order of packets after which the old owner still has the slot |
| `ClusterClaims.OrderMatters` | src/cluster.c:1556-1575 | two announcements, in one order the claimant and in the other the old owner ends with the slot |
| `ClusterClaims.OrderIndependentIff` | src/cluster.c:1531-1591 | all complete orders give the slot to the highest claimant iff the owner gives way |
| `ClusterClaims.EmptyTableConverges` | src/cluster.c:1531-1591 | from an empty table every slot ends with its highest claimant |
| `ClusterClaims.UnclaimedKeepsOwner` | src/cluster.c:1549-1557 | a slot that nobody claims, or that is being imported, keeps its owner |
| `ClusterSlots.AgreeAfterAdd` | src/cluster.c:3706-3711 | table, bitmaps and numslots agree after a slot is added |
| `ClusterSlots.AgreeAfterDel` | src/cluster.c:3716-3723 | they agree after a slot is freed |
| `ClusterSlots.TransferMovesExactly` | src/cluster.c:2918-2925 | takeover moves the old master's slots, all of them and no others |
| `ClusterSlots.SlotTable.constructor` | src/cluster.c:695-731 | a node starts as a master without slots |
| `ClusterSlots.SlotTable.SetSlotBit` | src/cluster.c:3665-3687 | sets the bit, counts it once, returns the old value |
| `ClusterSlots.SlotTable.ClearSlotBit` | src/cluster.c:3690-3695 | clears the bit, counts it once, returns the old value |
| `ClusterSlots.SlotTable.AddSlot` | src/cluster.c:3706-3711 | succeeds iff the slot is free and keeps table and bitmaps in agreement |
| `ClusterSlots.SlotTable.DelSlot` | src/cluster.c:3716-3723 | frees the slot; the assertion that the owner's bit was set never fires |
| `ClusterSlots.SlotTable.DelNodeSlots` | src/cluster.c:3727-3737 | frees exactly the node's slots and returns their number |
| `ClusterSlots.SlotTable.TestSlot` | src/cluster.c:3698-3700 | the bitmap answers what the table says |
| `ClusterSlots.SlotTable.MoveSlot` | src/cluster.c:1583-1584 | the slot passes to its new owner with both sides updated |
| `ClusterSlots.SlotTable.CloseAllSlots` | src/cluster.c:3741-3746 | no slot is importing or migrating, ownership unchanged |
| `ClusterSlots.SlotTable.SetMaster` | src/cluster.c:3933-3949 | the node leaves the list of its old master and joins that of the new one, which it then replicates; a master that is demoted drops all importing and migrating marks, a replica keeps them |
| `ClusterSlots.SlotTable.ClaimSlot` | src/cluster.c:1556-1590 | the slot is rebound iff the source's three tests allow |
| `ClusterSlots.SlotTable.MergeClaim` | src/cluster.c:1549-1591 | the loop is the merge function; it finds whether the master lost slots and which dirty ones were lost |
| `ClusterSlots.SlotTable.UpdateSlotsConfigWith` | src/cluster.c:1531-1625 | the whole handler: merge; discarded iff the sender is ourselves; a demotion iff our master lost a slot and has none left; else the dirty slots are reported iff there are any and the node redirects, and are exactly those grabbed with keys in them; role and marks change only with a demotion |
| `ClusterSlots.SlotTable.ProcessClaim` | src/cluster.c:1929-1944 | with the memcmp shortcut table, answer, role, master and marks are those of the full merge, and the claim is never discarded |
| `ClusterSlots.SlotTable.FailoverReplaceYourMaster` | src/cluster.c:2909-2937 | the replica leaves its master's list and becomes master of exactly its master's slots |
| `ClusterSlots.SlotTable.DelNode` | src/cluster.c:906-933 | a removed node leaves no slot, no importing and no migrating mark, no failure report, no list entry and no pointer to it |
| `ClusterSlots.SlotTable.FreeNode` | src/cluster.c:862-884 | the node disappears, its replicas lose their master, its master loses it, everything else stays in agreement |
| `ClusterReplicas.FollowedMirrors` | src/cluster.c:820-851 | a node that turns to another master keeps lists and pointers in agreement: a master lists exactly the nodes that point to it, each once |
| `ClusterReplicas.FreedMirrors` | src/cluster.c:862-884 | freeing a node keeps them in agreement for those left |
| `ClusterReplicas.DeletedIsForgotten` | src/cluster.c:906-933 | after clusterDelNode no list, pointer or report mentions the node that was freed |
| `ClusterReplicas.RemoveSlave` | src/cluster.c:820-837 | the list loses exactly that replica, or an error if it is not there |
| `ClusterReplicas.AddSlave` | src/cluster.c:839-851 | the list gains the replica at its end, or an error if it is there |
| `ClusterReplicas.WithdrawnHas` | src/cluster.c:792-810 | withdrawing a report removes it and, only then, reports that are too old; others stay |
| `ClusterReplicas.DelFailureReport` | src/cluster.c:765-810 | the two loops compute that |
| `ClusterRouting.ScanKey` | src/cluster.c:5503-5562 | one key of the scan: slot bound, keys of one slot, missing keys counted |
| `ClusterRouting.GetNodeByQuery` | src/cluster.c:5453-5623 | the scan over all commands of a transaction gives the one route that is right for its keys |
| `ClusterRouting.RouteIsRight` | src/cluster.c:5547-5623 | for each of the seven answers when it is right, stated by itself; exactly one is, and it is the one given |
| `ClusterMigration.ServedWhereKeysAre` | src/cluster.c:5573-5604 | a request is served only where none of its keys can be elsewhere; a multi-key one during migration only where all keys are local |
| `ClusterMigration.ReadsOneMap` | src/cluster.c:5573-5604 | a served request finds under its keys what the one map holds, so its reply is that of a single store |
| `ClusterMigration.RedirectStep` | src/cluster.c:5586-5623 | the third redirection never happens |
| `ClusterMigration.TurnedAwayIff` | src/cluster.c:5586-5597 | a single-key request is served or redirected, never turned away; a multi-key one is told to try again iff it is at the importing node under ASKING and a key is missing there |
| `ClusterMigration.OwnerServes` | src/cluster.c:5586-5623 | the owner of the slot serves keys it has, and all keys when it does not migrate the slot |
| `ClusterMigration.StepRefinesOneMap` | src/cluster.c:5453-5623 | every step of clients, key moves and configuration acts on the two nodes, and reads from them, as on one map |
| `ClusterMigration.MigrationIsInvisible` | src/cluster.c:5453-5623 | in every run no key is on both nodes, both together are the map of a single store, all served commands read what they would read there, and every single-key request in flight is served or, before its third hop, redirected |
| `ClusterMigration.ServedByThirdDelivery` | src/cluster.c:5453-5623 | a request sent to any node at any moment is, whatever else happens, still on its way after at most two redirections, or was served by its third delivery; only a multi-key request can be told to try again |
| `ClusterMigration.CanFinish` | src/cluster.c:4368-4415 | from every reachable state the operator can finish: all keys end at the new owner and no request is touched |
| `ClusterMigration.UnsolicitedAsking` | src/cluster.c:5587-5597 | a command under ASKING without ASK keeps the nodes disjoint iff the source has no such key or the command leaves none |
| `ClusterMigration.UnsolicitedSetDuplicates` | src/cluster.c:5587-5597 | a SET under ASKING that nobody asked for leaves the key on both nodes |
| `AofBytes.ParseDec` | src/aof.c:539-541 | a number written by ll2string is read back by strtol |
| `AofCodec.ReadWholeCommand` | src/aof.c:787-826 | parsing an encoded command, with any binary arguments and anything after it, returns it |
| `AofCodec.ReadCutCommand` | src/aof.c:787-826 | a command cut at any byte is an end of file or a short read, never a format error |
| `AofLoad.CatGenericCommand` | src/aof.c:534-557 | appends exactly the encoded command |
| `AofLoad.ReadArguments` | src/aof.c:803-826 | the argument loop is the recursive reader |
| `AofLoad.ReadNext` | src/aof.c:787-826 | one turn of the read loop is the command reader |
| `AofLoad.LoadAppendOnlyFile` | src/aof.c:715-934 | outcome, truncation offset, executed commands and what execCommand feeds to the log meanwhile are those of the load function; an empty file and an RDB preamble are told apart from all others |
| `AofLoad.MalformedIsFormatError` | src/aof.c:794-810 | after whole commands, a line that is no command head, a count below one or an argument without its length is a format error; what came before has taken effect |
| `AofLoad.UnknownIsReported` | src/aof.c:830-836 | and a whole command that the table lacks ends the load as unknown |
| `AofLoad.DbAfterIsSelected` | src/aof.c:838-857 | the database tracked for what is fed is the one a client replaying the commands is in |
| `AofLoad.ProcessCommits` | src/aof.c:834-862 | queueing under MULTI executes the commands outside transactions and the closed blocks, in order |
| `AofLoad.ProcessEchoes` | src/multi.c:117-191 | loading feeds one MULTI, after a SELECT when the database changed, for each closed block with a command that is neither read-only nor administrative, and nothing else |
| `AofLoad.CutFileLoads` | src/aof.c:773-875 | a log cut anywhere executes what its whole commands commit and feeds what their blocks feed, and the offset is the end of the last whole command or the start of the open transaction |
| `AofLoad.EveryPrefixLoads` | src/aof.c:773-924 | so every prefix of a log loads, never with a format error |
| `AofLoad.WholeLogLoads` | src/aof.c:715-890 | a complete log executes what it commits |
| `AofRepair.RepairIsSafeIff` | src/aof.c:743-934 | whatever is logged after a load survives the next one iff the truncated file keeps no open transaction and no closed one made the load feed a MULTI |
| `AofRepair.EchoesSelect` | src/aof.c:543-552 | what loading feeds leaves a client that replays it in the database the server takes to be logged last |
| `AofRepair.OneMultiPerBlock` | src/multi.c:173-176 | loading feeds exactly one MULTI for every closed block with a command that is neither read-only nor administrative |
| `AofRepair.ProbeIsLost` | src/aof.c:743-934 | otherwise any next command is lost |
| `AofRepair.EchoesAnythingIff` | src/multi.c:167-176 | loading feeds something iff a closed block holds a command that is neither read-only nor administrative |
| `AofRepair.CommittedTransactionSwallows` | src/aof.c:743-745 | the complete log MULTI, SET, EXEC loses the next command |
| `AofRepair.CutTransactionSwallows` | src/aof.c:901-924 | so does a log cut one byte into the second command of a transaction |
| `AofFlush.Aof.Write` | src/aof.c:301-332 | what reaches the file is the prefix of the data that the returned count announces, under any short, interrupted or failing writes |
| `AofFlush.Aof.FlushAppendOnlyFile` | src/aof.c:353-505 | file, buffer, recorded size and error state after a flush: nothing is written while it may wait, everything when it must write and can; the process exits iff the policy is always and a write is incomplete; a removed short write leaves file and buffer as they were |
| `AofFlush.FlushConserves` | src/aof.c:405-505 | a flush loses nothing unless it exits, and then the file is a prefix of what was fed |
| `AofFlush.CompleteWriteFlushes` | src/aof.c:484-505 | a complete write empties the buffer into the file |
| `AofFlush.MustWriteWrites` | src/aof.c:376-399 | a flush must write iff there is data and another policy, a force, no fsync, or two seconds of delay; then a complete write stores everything fed, and otherwise nothing moves |
| `AofFlush.AlwaysExitsIff` | src/aof.c:462-471 | under the always policy the process ends iff the write is incomplete |
| `AofFlush.PostponedBytesReachFile` | src/aof.c:379-395 | bytes whose flush was put off are in the file after any later flush two seconds on, whatever was fed or flushed in between, while writes succeed |
| `AofFlush.WrittenIsAll` | src/aof.c:301-332 | aofWrite writes everything iff the writes add up to it |
| `AofFlush.RunConserves` | src/aof.c:353-505 | in every run the file only grows, and file and buffer together are all bytes fed and the size is the file's |
| `AofFlush.StoppedServerRestarts` | src/aof.c:301-934 | whenever a server that started with any log stops, its file loads to what the commands that reached the disk whole commit, those of the start among them |
| `AofRewrite.RewriteBuffer.Append` | src/aof.c:128-172 | the contents grow by exactly the data, blocks stay accounted for, the sender is installed |
| `AofRewrite.RewriteBuffer.ChildWriteDiffData` | src/aof.c:98-125 | what was sent and what is left are what was there; something is sent iff sending has not stopped, there is data and the first write takes some; writes that take everything empty the buffer; unsent data keeps its handler |
| `AofRewrite.RewriteBuffer.Write` | src/aof.c:177-197 | all contents are appended and counted iff every write takes its block, else -1 with a partial copy |
| `AofRewrite.RewriteBuffer.Size` | src/aof.c:82-93 | the number of bytes held |
| `AofHandoff.ConservedStep` | src/aof.c:98-197 | every step of parent or child keeps child diff + pipe + buffer equal to the bytes fed since the fork |
| `AofHandoff.SilencedStep` | src/aof.c:1510-1531 | a draining child implies a silent parent; an exited child has drained the pipe |
| `AofHandoff.HandoffConserves` | src/aof.c:1311-1321 | both hold at every point of every interleaving, and the old file with its buffer still has everything |
| `AofHandoff.HandoffIsExact` | src/aof.c:1441-1479 | the installed file is the snapshot followed by exactly the bytes fed since the fork, or the old file with its buffer is complete |
| `AofHandoff.CompletesIff` | src/aof.c:1441-1479 | from any state of any run some continuation reaches the switch iff the rewrite is not over, the child has not failed and the parent's answer was not lost |
| `AofHandoff.SwitchFollows` | src/aof.c:1510-1531 | that continuation feeds nothing more, and the switch then installs snapshot plus everything fed |
| `AofHandoff.ChildTakesAll` | src/aof.c:98-125 | data sent down the pipe can all end up in the child's file, with nothing left for the parent |
| `AofHandoff.FlushKeepsOldFile` | src/aof.c:543-583 | until the switch a flush completes the old file with everything fed |
| `AofHandoff.BackgroundRewriteDone` | src/aof.c:1694-1842 | the handler installs iff the child succeeded and opening, every write and the rename did: then, with an open log, its buffer is cleared, its size taken and the selected database forgotten; else nothing changes |
| `AofData.ExecAllInDb` | src/aof.c:596-609 | commands between two SELECTs act on one database |
| `AofData.ExecExpireAt` | src/expire.c:405-450 | while loading PEXPIREAT stores the time, past or not, and never deletes |
| `AofRebuild.EncodeChunk` | src/aof.c:964-970 | the announced argument count is the number of arguments that follow |
| `AofRebuild.RewriteItems` | src/aof.c:956-1156 | the item loop with its two counters writes exactly the chunk commands of at most 64 items |
| `AofRebuild.ChunksReplay` | src/aof.c:956-1156 | replaying the chunks adds all items, however they were split |
| `AofRebuild.IterationRebuilds` | src/aof.c:956-1156 | adding the items of any iteration order gives the list, set, sorted set or hash back |
| `AofRebuild.KeyReplays` | src/aof.c:1340-1383 | the commands of a key rebuild its value and expire time |
| `AofRebuild.DbReplays` | src/aof.c:1338-1392 | the commands of a database rebuild it, in whatever order keys are visited |
| `AofSnapshot.SnapshotRebuilds` | src/aof.c:1323-1396 | replaying the snapshot into an empty server rebuilds every database |
| `AofSnapshot.SnapshotIsExactIff` | src/aof.c:1375-1383 | the rebuilt dataset is the original iff no expire time is -1 |
| `AofSnapshot.RewriteKey` | src/aof.c:1340-1383 | the writer of one key produces its commands |
| `AofSnapshot.RewriteDb` | src/aof.c:1338-1392 | the key loop visits every key once and writes their commands |
| `AofSnapshot.RewriteAppendOnlyFileRio` | src/aof.c:1323-1396 | the whole writer produces the encoded snapshot of all databases |
| `AofTranslate.CommandReplaysIff` | src/aof.c:566-660 | what is logged for a command replays to the same database iff it stored no relative expire time or read one clock, and is no INCRBYFLOAT on a string with an expire time |
| `AofTranslate.ParseOptions` | src/t_string.c:351-395 | the option loop of SET accepts a list iff NX does not meet XX nor EX meet PX, the last time given counting |
| `AofTranslate.FeedSeesExpire` | src/aof.c:623-639 | for the options SET accepted, the log scan finds the expire time the command used, and its assertion never fires |
| `AofTranslate.FloatForgetsExpire` | src/t_string.c:679-685 | INCRBYFLOAT on a key with an expire time replays to a key without one |
| `AofTranslate.LogReplays` | src/aof.c:596-660 | replaying the log of any run of such commands over any databases, plain commands having any effect on their database, gives the same values and absolute expire times in the same databases |
| `AofTranslate.LateFeedMovesExpire` | src/aof.c:582-585 | with two clock readings the replayed expire time differs |
| `AofTranslate.WrapInjective` | src/aof.c:566-594 | in 64-bit arithmetic two base times give one expire time iff they are equal |
| `AofTranslate.Keyspace.DbDelete` | src/db.c:271-281 | key and expire time disappear together |
| `AofTranslate.Keyspace.ExpireIfNeeded` | src/db.c:1113-1206 | the key is deleted and a DEL is fed iff it has a time t with 0 <= t < now |
| `AofTranslate.Keyspace.TryActiveExpire` | src/expire.c:54-73 | the expire cycle deletes and feeds iff the time is before now, also a negative one |
| `AofTranslate.Keyspace.ExpireGeneric` | src/expire.c:405-450 | a live key gets exactly the time asked for if it is later than now, else it is deleted; a missing key stays missing |
| `AofTranslate.Keyspace.SetGeneric` | src/t_string.c:67-93 | the value is stored iff the expire argument is positive and NX finds the key absent, XX present, an expired key counting as absent; it has the time asked for or none |
| `AofTranslate.ParsedIs` | src/t_string.c:351-395 | SET options are refused iff NX meets XX or EX meets PX; else the condition and the unit are those named |
| `AofTranslate.WhenIsExact` | src/expire.c:405-420 | within 64 bits the time is the argument in milliseconds after the start |
| `AofTranslate.Keyspace.IncrementByFloat` | src/t_string.c:654-686 | the result is stored unless the key holds another type; the key keeps its expire time and SET is fed |
| `AofRecovery.CatExpireAt` | src/aof.c:566-594 | appends the PEXPIREAT for a relative or absolute argument |
| `AofRecovery.TextFor` | src/aof.c:596-644 | SELECT when the database changes, then the translated command; a SET with options is cut to three arguments |
| `AofRecovery.FindTimes` | src/aof.c:628-631 | the scan finds the last EX and the last PX |
| `AofRecovery.Feeder.FeedAppendOnlyFile` | src/aof.c:596-660 | both buffers receive the same bytes |
| `AofRecovery.LiveIsFed` | src/aof.c:596-644 | the log of a live command is the translation of the feedAppendOnlyFile calls it makes |
| `AofRecovery.FedTwice` | src/aof.c:602-609 | SELECT is written at most once for two calls on one database |
| `AofRecovery.RunText` | src/aof.c:596-660 | over any run of commands and transactions the calls of feedAppendOnlyFile append exactly the text of its log |
| `AofTurns.CommittedRebuilds` | src/multi.c:117-198 | what loading the log of any run of commands and transactions commits rebuilds the same databases, also when the run starts inside a transaction whose MULTI is not in the log, and the log ends outside a transaction |
| `AofTurns.EventFollows` | src/multi.c:167-198 | after each command, MULTI and EXEC the loading client is in a transaction iff the log has its MULTI, and has taken commands that give the same databases |
| `AofRecovery.OverflowIsNotSaved` | src/t_string.c:67-93 | at every time that is 7 modulo 8 some SETEX overflows to the expire time -1, and no snapshot of it is exact |
| `AofRecovery.SnapshotAndDiff` | src/aof.c:1642-1646 | a file of the snapshot and the commands and transactions logged since the fork, starting with SELECT, loads to the current dataset; the fork may have been inside a transaction |
| `AofRecovery.RewriteRecovers` | src/aof.c:1795-1803 | in every handoff run, with any commands and transactions fed meanwhile, also the rest of the one that forked, a restart after the switch recovers the running dataset although the regular buffer was discarded |
| `AofRecovery.RewriteCompletes` | src/aof.c:1441-1479 | such a switch follows from every state in which the child lives and was not refused, and recovers the running dataset |
| `BlockedIndex.AddKeepsIndex` | src/blocked.c:517-548 | one key of blockForKeys keeps clients and waiter lists in agreement |
| `BlockedIndex.UnblockKeepsIndex` | src/blocked.c:554-587 | unblocking keeps them in agreement and forgets the client |
| `BlockedIndex.RotateKeepsIndex` | src/blocked.c:291-297 | moving a waiter of another type to the tail keeps them in agreement |
| `BlockedServe.CountersRemove` | src/blocked.c:176-177 | the counters count the blocked clients, in total and by type |
| `BlockedServe.UnblockKeeps` | src/blocked.c:162-181 | index, ready list, counters and the UNBLOCKED queue all stay right |
| `BlockedServe.SignalKeeps` | src/blocked.c:596-617 | a key is queued at most once |
| `BlockedServe.ServeKeeps` | src/blocked.c:280-327 | serving the first waiter keeps all of it, with one blocked client less |
| `BlockedServe.ServeConserves` | src/blocked.c:299-326 | no element is lost: it is delivered, pushed to the target or pushed back |
| `BlockedQueue.ServeTakesFirst` | src/blocked.c:286-313 | the queue loses exactly its first client |
| `BlockedQueue.WrongTargetUndoes` | src/blocked.c:314-322 | a target of another type leaves the data exactly as it was and releases the client |
| `BlockedQueue.TargetGains` | src/t_list.c:650-675 | one list loses its end and the target gains it at the head, also when both are the same list |
| `BlockedQueue.ServeDelivers` | src/t_list.c:632-648 | without target the client gets the element of its end |
| `BlockedQueue.ServeKeepsAwake` | src/blocked.c:280-327 | whatever serving pushes, a key that could now serve one of its waiters is queued, or that waiter was asleep on it before |
| `BlockedQueue.DoneIsAwake` | src/blocked.c:328-334 | after the loop the key is gone or none of its waiters can use it |
| `Blocked.ServeTurn` | src/blocked.c:285-327 | one turn keeps the invariants, the elements and the progress measure |
| `Blocked.RotateTurn` | src/blocked.c:291-297 | so does the rotation of a waiter of another type |
| `Blocked.ServingEnds` | src/blocked.c:286-334 | when the loop ends nobody who could be served waits on the key, and nothing is lost |
| `BlockedOrder.OrderServed` | src/blocked.c:286-327 | serving a client keeps: those served are the first of the key's type, one reply each in that order, other queues lose only them, and what is sent comes off the ends each asked for |
| `BlockedOrder.OrderRotated` | src/blocked.c:291-297 | so does moving a client of another type to the tail |
| `BlockedOrder.PathOrdered` | src/blocked.c:280-334 | so for the whole loop, and exactly those served have left |
| `BlockedOrder.AllMatchAtFront` | src/blocked.c:280-289 | when all waiters want the key's type those served are the front of the queue |
| `Blocked.Blocking.BlockForKeys` | src/blocked.c:508-550 | the client joins the tail of each named key's queue once, nothing else changes, and only it can become one more client that sleeps on a key it could use |
| `Blocked.Blocking.UnblockClientWaitingData` | src/blocked.c:554-587 | it leaves all of them, empty lists disappear |
| `Blocked.Blocking.UnblockClient` | src/blocked.c:162-181 | and is counted out and queued for reprocessing |
| `Blocked.Blocking.QueueForReprocessing` | src/blocked.c:151-158 | queued once |
| `BlockedLoop.ProcessUnblockedClients` | src/blocked.c:112-133 | ends although the requests it executes queue clients again, takes the queue in order, leaves each client it looked at blocked or with no request unread, and gets from the first to the last state by executing exactly the requests read, each client's in the order sent |
| `BlockedLoop.ProcessInput` | src/blocked.c:123-131 | requests of one client are executed in order until it is blocked or has sent no more; whoever is released is queued |
| `BlockedLoop.Execute` | src/blocked.c:246-479 | a request blocks its client on its keys, pushes, stores or releases, then the ready keys are handled; all structures stay right |
| `Blocked.Blocking.SignalKeyAsReady` | src/blocked.c:596-617 | queues a key with waiters that is not queued yet |
| `Blocked.Blocking.PushGeneric` | src/t_list.c:197-224 | elements are added, or nothing for another type, a new key with waiters is signaled, and no other client falls asleep |
| `Blocked.Blocking.SetKey` | src/db.c:216-225 | the value is stored, the key signaled only if it is new and a list or sorted set, and all structures stay right |
| `Blocked.SetWakesIff` | src/db.c:189-225 | setKey leaves nobody asleep on the key iff nobody waits for the new value, or the key is new or already queued |
| `Blocked.OverwriteLeavesClientAsleep` | src/sort.c:566-566 | a client waits for a list, a string is stored, SORT STORE overwrites it by a list: the client sleeps |
| `Blocked.WhoStillWaits` | src/blocked.c:246-479 | when the ready list is empty the clients that could take something are exactly those that slept before and are still blocked |
| `Blocked.PushAllIs` | src/t_list.c:206-215 | RPUSH appends in order, LPUSH puts the elements in front in reverse order |
| `Blocked.Blocking.ServeClient` | src/t_list.c:628-683 | reply, push to target, or push back |
| `Blocked.Blocking.ServeWaiters` | src/blocked.c:270-340 | the loop over the waiters of one key serves them in order and takes an emptied key away |
| `Blocked.Blocking.HandleKey` | src/blocked.c:256-340 | handling a key releases exactly the clients served, first come first served among those waiting for its type, with one reply each; a key without a collection serves nobody |
| `Blocked.TurnsInOrder` | src/blocked.c:246-268 | over all keys: they are handled in the order they were queued, exactly the clients served leave, and the replies go to them in that order |
| `Blocked.Blocking.HandleClientsBlockedOnKeys` | src/blocked.c:246-479 | from any state with a sound index terminates although serving queues keys again, takes the keys in the order queued, serves each key's clients first come first served, replies to exactly them in that order, loses no element, and leaves a client waiting for something it could have iff it slept on that key before and was not served |
| `SlotIndex.LeIsLexicographic` | src/db.c:1533-1536 | the order of the index is that of memcmp, a prefix coming first |
| `SlotIndex.PrefixKeepsOrder` | src/db.c:1494-1502 | all entries of a slot lie before those of a greater slot |
| `SlotIndex.HasLeast` | src/db.c:1533-1534 | a non-empty index has a smallest entry in the order of the radix tree |
| `SlotIndex.AddAgrees` | src/db.c:1489-1506 | adding a key keeps index and counters in agreement with the dictionary |
| `SlotIndex.RemoveAgrees` | src/db.c:1489-1506 | so does removing one |
| `SlotIndex.LeastIsInSlot` | src/db.c:1552-1556 | if a slot has keys, the first entry at or after its prefix is one of them |
| `SlotKeys.VisitStops` | src/db.c:1535-1536 | an entry of another slot means the slot is exhausted |
| `SlotKeys.Keyspace.SlotToKeyUpdateKey` | src/db.c:1489-1506 | one counter and one index entry change |
| `SlotKeys.Keyspace.DbAdd` | src/db.c:173-182 | the key is stored and indexed |
| `SlotKeys.Keyspace.DbOverwrite` | src/db.c:189-206 | the value changes, the index does not |
| `SlotKeys.Keyspace.DbDelete` | src/db.c:271-281 | key, expire time and index entry disappear |
| `SlotKeys.Keyspace.SetKey` | src/db.c:216-225 | the key is written and becomes persistent |
| `SlotKeys.Keyspace.Rename` | src/db.c:869-909 | value and expire time move, the target is replaced unless NX forbids it |
| `SlotKeys.Keyspace.EmptyDb` | src/db.c:342-377 | everything is removed and counted, index included |
| `SlotKeys.Keyspace.CountKeysInSlot` | src/db.c:1566-1568 | the number of stored keys hashing to the slot |
| `SlotKeys.Keyspace.GetKeysInSlot` | src/db.c:1526-1541 | distinct keys of the slot in ascending order, the first `count` of them or all |
| `SlotKeys.Keyspace.DelKeysInSlot` | src/db.c:1545-1564 | terminates, removes exactly the slot's keys and returns their number |
| `BitCount.LanesAsNat` | src/bitops.c:66-86 | the word steps leave in each byte the number of its bits |
| `BitCount.MultiplyAddsLanes` | src/bitops.c:80-86 | the product adds the lanes of seven words in the top byte, at most 224 |
| `BitCount.CountBlock` | src/bitops.c:55-87 | the 28-byte block counts its bits |
| `BitCount.RedisPopcount` | src/bitops.c:40-92 | the number of one bits, for every length and alignment |
| `BitPos.SkipBytes` | src/bitops.c:118-141 | what is skipped holds no such bit, and the next 64 bits decide |
| `BitPos.LoadWord` | src/bitops.c:143-158 | the word is the next 64 bits, zero padded |
| `BitPos.ScanFinds` | src/bitops.c:160-185 | the scan finds a bit, so the panic is unreachable |
| `BitPos.RedisBitpos` | src/bitops.c:101-186 | the first position with the bit in the zero-extended string, or -1 |
| `BitOp.WordsAreBytes` | src/bitops.c:678-726 | an operation on words is the operation on their bytes |
| `BitOp.FastBlock` | src/bitops.c:669-726 | 32 bytes of all strings, four words at a time |
| `BitOp.TailByte` | src/bitops.c:730-743 | a byte of the vanilla loop |
| `BitOp.Lengths` | src/bitops.c:622-655 | minimum and maximum length, missing keys being empty |
| `BitOp.Bitop` | src/bitops.c:591-745 | the result is as long as the longest string, and each bit is set in all strings, in some, in an odd number of them, or not set in the one, missing bits being zero |
| `BitField.FieldOfBits` | src/bitops.c:209-222 | a field holding the bits of a number reads as that number modulo its width |
| `BitField.BitOfField` | src/bitops.c:229-241 | the bits of the number read are the bits of the field |
| `BitField.GetUnsignedBitfield` | src/bitops.c:229-241 | the number in the field |
| `BitField.SetUnsignedBitfield` | src/bitops.c:209-222 | the field gets the low bits of the value and no other bit changes |
| `BitField.OtherFieldsKept` | src/bitops.c:209-222 | fields that do not overlap keep their value |
| `BitField.BitfieldGet` | src/bitops.c:1099-1121 | the nine-byte window reads the field of the zero-extended string |
| `BitWords.WordBits` | src/bitops.c:366-370 | the operators on numbers set and clear bits as those of C do |
| `BitWords.HighBits` | src/bitops.c:359-370 | or-ing and clearing a mask of high bits extends or cuts a number at that bit |
| `BitOverflow.UnsignedCheckIsExact` | src/bitops.c:288-323 | 0 iff value and exact sum fit; SAT the bound crossed, WRAP the sum modulo the width |
| `BitOverflow.WrapSignedIsIff` | src/bitops.c:357-372 | signed wrapping is reduction modulo the width read as two's complement, whatever a shift by 64 gives, iff the width is below 64 or the wrapped sum is 0 or -1 |
| `BitOverflow.SignedCheckIsExact` | src/bitops.c:325-375 | the same for a stored signed value of 1 to 64 bits |
| `BitOverflow.SignedSetSaturatesIff` | src/bitops.c:325-353 | for SET the check is exact, but saturation picks the right bound iff the value is above a bound of the width |
| `BitOverflow.SmallestSaturatesToLargest` | src/bitops.c:325-353 | the smallest number saturates to the largest value of an 8-bit field |
| `BitOverflow.GetSignedBitfield` | src/bitops.c:243-263 | the two's complement reading of the field, unless it has 64 bits and holds a negative number other than -1 |
| `BitOverflow.ReadIsExactIff` | src/bitops.c:257-262 | the sign extension is right whatever a shift by 64 gives iff the width is below 64, or the number is not negative, or it is -1 |
| `BitOverflow.MinusTwoReadsAsMinusOne` | src/bitops.c:257-262 | -2 in 64 bits reads as -1 if the shift leaves all bits set |
| `BitOverflow.SetSignedBitfield` | src/bitops.c:224-227 | the field reads as the value reduced to its width |
| `BitOverflow.IncrBySigned` | src/bitops.c:1027-1057 | exact sum, wrapped, saturated or refused, on 64 bits as far as the two shifts by 64 cannot matter; other bits unchanged |
| `BitOverflow.IncrIsExactIff` | src/bitops.c:1032-1041 | the increment is right whatever the two shifts by 64 give iff the width is below 64, or the number is read right and need not be wrapped, or every negative number is refused or saturates to the smallest |
| `BitOverflow.SetSigned` | src/bitops.c:1027-1057 | stores the value under the same policies and answers the old one |
| `BitOverflow.IncrByUnsigned` | src/bitops.c:1058-1087 | the same for unsigned fields |
| `BitOverflow.UnsignedSetSaturatesIff` | src/bitops.c:288-323 | for SET on an unsigned field the check is exact, but saturation picks the right bound iff the argument is not negative |
| `BitOverflow.MinusOneSaturatesToLargest` | src/bitops.c:288-323 | -1 saturates to the largest value of an 8-bit field |
| `BitOverflow.SetUnsigned` | src/bitops.c:1058-1087 | stores the argument, read as an unsigned number, under the same policies and answers the old value |

## Left out

- Epochs are unbounded naturals: 64-bit wrap-around of an epoch is not modelled.
- The voter set is fixed and every node agrees on its size; joining and leaving nodes, CLUSTER RESET, TAKEOVER and failure detection are not modelled.
- Votes are recorded and sent in one step: what a crash between saving and sending does is not modelled.
- ClusterEpochs.EpochBoundAlways: every node handles every packet except an ACK, which only its addressee counts; gossip sections, links and delays are not modelled.
- The migrate-to flag of a node, the manual failover state and the replication link of this node are not modelled.
- ClusterMigration.MigrationIsInvisible: one slot, atomic key moves; MIGRATE's sockets and retries are not modelled.
- AofLoad.LoadAppendOnlyFile: with aof-load-truncated on and reads that fail only at the end of the file; the RDB preamble is handed over, command names are looked up in a given table, and what a command does is left to AofData.
- AofFlush.Aof.FlushAppendOnlyFile: fsync and its scheduling change no bytes and are not modelled; the instant-recovery indexing call in aofWrite changes no log state.
- AofHandoff.HandoffIsExact: the pipe is a FIFO of unlimited size, so what is sent at once is any non-empty part of the buffer.
- AofData: streams and modules are not modelled, scores are the text they are written in, command names are in upper case, and an even number of ZADD options is read as members.
- AofTranslate.LogReplays: commands that touch several databases (MOVE, SWAPDB, FLUSHALL), commands that read the clock again when they are replayed (RESTORE with a relative time), and scripts are not modelled.
- AofRecovery.RewriteRecovers: the argument sizes of the C types and a command table that knows the commands are hypotheses, and the switch happens outside a transaction, as between two turns of the event loop.
- Blocked.Blocking.HandleClientsBlockedOnKeys: clients blocked on streams stay in their queues untouched; serving them and consumer groups are not modelled.
- BlockedLoop.Execute: a request is blocking on keys, a push, an overwrite, the release of a client, or has no effect on blocked clients.
- SlotKeys.Keyspace.EmptyDb: one database, the only one a cluster node uses; asynchronous freeing is not modelled.
- Expiry on access inside RENAME and the blocking commands is not repeated there; it is a deletion before the command.
- BitOverflow.IncrBySigned: a signed addition that overflows wraps; its result is replaced before it is used.
- BitOverflow.SignedSetSaturatesIff: the signed subtractions max-value and min-value wrap when they overflow, which C leaves undefined; below 64 bits the result is compared.
- BitCount.RedisPopcount: the table of bits per byte is the function it tabulates.
- Replication, scripting, the command parser and everything that only logs or measures is not modelled.
