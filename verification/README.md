# Tendis, verified in Dafny

A model of the parts of Tendis that decide who serves a slot and that move, store and serialize its data, with
proofs of what those parts promise.

**Cluster control plane.** `NodeState` holds the cluster state as it lies in memory: the slot table, the bitmap and
the slot count of every node, the epochs and the election fields. `PacketProcessing` handles packets on it in place.
Both are proved against `ClusterModel`, the same handlers as functions on a node's *view*. `PacketEffects` says what
each packet does from outside, by the views before and after: when a vote is given, an ack counted, a master left for
another, a claim answered. `ClusterRuns` turns the handlers into a transition system: one view per node, packets that
are delayed, reordered, lost or broadcast, one atomic step per handler. Over all its runs are proved

- `EpochSafety`: config epochs never exceed current epochs, and no epoch decreases;
- `ElectionSafety`: one vote per voter and epoch, and one winner per epoch for rounds without early acks;
  `EarlyAcks` is a run in which an early ack gives two winners;
- `FailoverSafety`: every vote not forced was cast by a voter that saw the candidate's master down, and a winner
  carries an epoch with which its claims of the old master's slots are heard;
- `CollisionRepair`: at most n(n - 1)/2 bumps among n masters, and rest exactly when all config epochs differ;
- `SlotConfluence`: exactly when every order of hearing the claims leaves each slot with its newest claimant.

`SlotsReply` shows that the two forms of CLUSTER SLOTS give the same answer.

**Slot migration.** `Migration` is the replay of the binlog and its retry loop, `MigrateSender` the whole task of a
sender, `SnapshotStream` the bytes of the snapshot, `Handover` the change of ownership as a step machine of source,
destination and messages, `MigrateTasks` the split of a request and the scheduler's bitmap, `SlotGc` the deletion of
slots that have moved away.

**Lists, hashes, codecs, cursors.** `ListStore` runs the list commands on numbered records in place and is proved
against the sequence operations of `ListSpec`. `HashStore` does the same for the field count of a hash. `Rdb`,
`Ziplist`, `ListDump` and `ListSerializer` are DUMP and RESTORE of a list; `PagedScan` is the cursor.

Slot count, clocks, the network, checksums and number formats are parameters. A handler that runs under a lock is
one step; a transaction is one update.

Eight promises do not hold of the code as it is. Each has a concrete failing case and an exact condition:

| promise | failing case | holds exactly when |
|---|---|---|
| only votes of the round are counted | `EarlyAcks.TwoWinnersInOneEpoch` | no ack was counted between the scheduling of the round and its request; such an ack is for a smaller epoch (`ElectionSafety.CountedVotesAreExact`) |
| a catch-up that reports success has delivered the binlog | `Migration.LostWrite` | not every attempt failed with the last one followed by a reconnect (`Migration.FalseSuccess`) |
| claims settle in any order | `SlotConfluence.OwnedByClaimantMayNotSettle` | the present owner of a claimed slot claims it too or ends up with a smaller epoch than some claimant of it (`SlotConfluence.ConfluentIffYields`) |
| a slot is never served by two nodes | `Handover.SlowDestinationSplits` | at every re-check nothing still listed by the source is or can be claimed (`Handover.NoSplitOwnership`) |
| a dumped list is restored | `ListDump.TwoElementsLost` | no entry with a successor in its ziplist has 251 to 253 bytes, or 247 to 250 after a long one (`ListDump.RestoredExactly`, `Ziplist.DisagreesExactly`) |
| an integer of a ziplist is restored | `Ziplist.MinusOneRead` | it is not a negative one in the 24-bit encoding (`Ziplist.Integer24Read`, `Ziplist.IntegerRead`, `Ziplist.ImmediateRead`) |
| LREM with a negative count removes that many from the tail | `ListSpec.OneTooMany` | the count is not INT32_MIN, or the value occurs at most 2^31 times (`ListSpec.RemovesAsAsked`) |
| LINSERT lands beside its pivot | `ListSpec.LandsAtTheEnd` | the side that is moved has fewer than 2^31 elements (`ListSpec.LandsRight`, `ListSpec.WrongPlace`) |

## Model

| member | source | states |
|---|---|---|
| NodeState.ClusterNode.AddSlot | src/tendisplus/cluster/cluster_manager.cpp:243-256 | a bit is added only if it is in range and not set; the count stays the size of the bitmap |
| NodeState.ClusterNode.ClearSlotBit | src/tendisplus/cluster/cluster_manager.cpp:286-294 | the bit goes, its old value is returned, and the count stays the size of the bitmap |
| NodeState.ClusterState.AddSlot | src/tendisplus/cluster/cluster_manager.cpp:2243-2257 | an unassigned slot gets the owner, an assigned one keeps it; table and bitmaps agree afterwards |
| NodeState.ClusterState.DelSlot | src/tendisplus/cluster/cluster_manager.cpp:2276-2286 | the slot becomes unassigned; the debug assertion on the old bit never fires; table and bitmaps agree |
| NodeState.ClusterState.SlotsAgree | src/tendisplus/cluster/cluster_manager.cpp:2243-2310 | from agreement: the bitmap of a node is the set of slots the table gives it, and the count is its size |
| NodeState.ClusterState.DelNodeSlots | src/tendisplus/cluster/cluster_manager.cpp:2299-2310 | exactly the node's slots become unassigned, and their number is returned |
| NodeState.ClusterState.RebindSlot | src/tendisplus/cluster/cluster_manager.cpp:1000-1023 | one slot moves exactly if it is unassigned or its owner's epoch is smaller, and the loss is noticed exactly if it was the current master's |
| NodeState.ClusterState.RebindSlots | src/tendisplus/cluster/cluster_manager.cpp:1000-1023 | the loop over all slots gives the table that rebinds every slot by the epochs at the start, and says whether this node's master lost one |
| NodeState.ClusterState.UpdateSlotsConfigWith | src/tendisplus/cluster/cluster_manager.cpp:975-1068 | the in-place update is the slot update on views, including the change of master, and keeps agreement; `PacketEffects.GossipFollows` says when the master changes |
| NodeState.ClusterState.SetMaster | src/tendisplus/cluster/cluster_manager.cpp:1875-1907 | this node follows another unless it serves slots or is an arbiter |
| NodeState.ClusterState.MaxEpoch | src/tendisplus/cluster/cluster_manager.cpp:3198-3216 | the result bounds every epoch known and is zero or one of them |
| NodeState.ClusterState.MaxDecidesBump | src/tendisplus/cluster/cluster_manager.cpp:907-912 | comparing with the maximum decides exactly whether this node's config epoch is zero or not the greatest known |
| NodeState.ClusterState.BumpConfigEpoch | src/tendisplus/cluster/cluster_manager.cpp:907-918 | the in-place bump is the bump on views |
| NodeState.ClusterState.AssignLoop | src/tendisplus/cluster/cluster_manager.cpp:1163-1184 | slots are assigned up to the first unassigned one, and success is reported exactly if there is none |
| NodeState.ClusterState.SetSlots | src/tendisplus/cluster/cluster_manager.cpp:1155-1200 | assignment, and a bump if the slots became this node's, keep agreement and refine the step on views |
| NodeState.ClusterState.TakeSlotsOf | src/tendisplus/cluster/cluster_manager.cpp:2938-2951 | the inner error returns of a takeover are never reached, and exactly the old master's slots change owner |
| NodeState.ClusterState.ReplaceYourMaster | src/tendisplus/cluster/cluster_manager.cpp:2922-2955 | a master or an orphan is refused and nothing changes; otherwise the takeover succeeds and refines the one on views |
| NodeState.TakeOverMoves | src/tendisplus/cluster/cluster_manager.cpp:2922-2955 | a takeover adds exactly the old master's slots to this node's, leaves every other node's alone, makes this node a master with the epoch it had, changes no other node, and no slot becomes assigned or unassigned |
| NodeState.ClusterState.DelNode | src/tendisplus/cluster/cluster_manager.cpp:2089-2113 | a forgotten node owns nothing, is nobody's master and is gone; everything else stays |
| PacketProcessing.ReceiveHeader | src/tendisplus/cluster/cluster_manager.cpp:5360-5374 | the common part of every packet, in place, raises the two epochs as on views |
| PacketProcessing.SwitchSenderRole | src/tendisplus/cluster/cluster_manager.cpp:5605-5642 | a master that reports a master loses its slots; role, master and table change as on views |
| PacketProcessing.BuildHeader | src/tendisplus/cluster/cluster_manager.cpp:3490-3532 | the header read from the bitmaps is the one computed from the slot table; a replica publishes its master's slots and epoch |
| PacketProcessing.FindNewerOwner | src/tendisplus/cluster/cluster_manager.cpp:5699-5722 | the loop finds the first owner of a claimed slot with a greater epoch, or none exists |
| PacketProcessing.ClaimDiffers | src/tendisplus/cluster/cluster_manager.cpp:5657-5665 | comparing bitmaps decides whether the claim differs from the slot table |
| PacketProcessing.HandleCollision | src/tendisplus/cluster/cluster_manager.cpp:1070-1092 | this node moves to a new epoch exactly if both are masters with one epoch and its name is the smaller |
| PacketProcessing.ProcessGossip | src/tendisplus/cluster/cluster_manager.cpp:5605-5732 | the stages in place, in the code's order, give the view and the reply of the handler on views, and keep agreement |
| PacketProcessing.ProcessUpdate | src/tendisplus/cluster/cluster_manager.cpp:5812-5845 | a relayed claim, in place, refines the handler on views; outdated and unknown ones change no slot |
| PacketProcessing.VoteAllowed | src/tendisplus/cluster/cluster_manager.cpp:2690-2795 | the checks one after the other, with the loop over the slots, grant a vote exactly under the voting conditions, which `PacketEffects.VoteGrantedIff` gives |
| PacketProcessing.ProcessAuthRequest | src/tendisplus/cluster/cluster_manager.cpp:2690-2810 | a vote is recorded for the current epoch and acknowledged exactly if it is granted |
| PacketProcessing.ProcessAuthAck | src/tendisplus/cluster/cluster_manager.cpp:5771-5784 | exactly the acks of voters with an epoch no smaller than the request's are counted |
| PacketProcessing.HandleSlaveFailover | src/tendisplus/cluster/cluster_manager.cpp:3077-3180 | each call schedules, waits, expires, asks, wins or lacks votes as clocks and count say, and changes the state as that step on views; `PacketEffects.WinnerTakesSlots` says what winning brings |
| PacketEffects.Published | src/tendisplus/cluster/cluster_manager.cpp:3490-3532 | a header names this node, its current epoch and its master, and the slots and config epoch of itself if it is a master, of its master otherwise |
| PacketEffects.VoteGrantedIff | src/tendisplus/cluster/cluster_manager.cpp:2690-2810 | a request is acknowledged if and only if the receiver is a master with a slot or an arbiter, the epoch is not behind and not voted in, the sender is known and reported as a replica, its master is down or the request forced, the last vote for that master is old enough, and no owner of a claimed slot is known by a greater epoch; the vote is for the request's epoch and is remembered |
| PacketEffects.AckCountedIff | src/tendisplus/cluster/cluster_manager.cpp:5771-5784 | the count grows by one if and only if the ack is of a master that owns a slot or is an arbiter, with an epoch no smaller than the request's |
| PacketEffects.FailMarks | src/tendisplus/cluster/cluster_manager.cpp:5739-5763 | FAIL from a known sender marks exactly the node named, never this node, and changes no slot and no role |
| PacketEffects.SenderRole | src/tendisplus/cluster/cluster_manager.cpp:5605-5642 | the sender's role and master become those of its header, exactly the slots of a master that reports a master become unassigned, and nothing else changes |
| PacketEffects.GossipFollows | src/tendisplus/cluster/cluster_manager.cpp:975-1068 | gossip changes this node's role or master if and only if it, or its master, lost a slot to the sender and has none left, this node serves none, is no arbiter, and may adopt; it then follows the sender |
| PacketEffects.UpdateMessageFollows | src/tendisplus/cluster/cluster_manager.cpp:5812-5845 | the same for an UPDATE about another node; one about this node itself moves no slot, and makes it a master if and only if it is a replica and the epoch told is greater |
| PacketEffects.NewerOwnerIs | src/tendisplus/cluster/cluster_manager.cpp:5699-5722 | the owner found is that of the first claimed slot held by another node with a greater epoch, and none is found exactly if there is no such slot |
| PacketEffects.StaleClaimAnswered | src/tendisplus/cluster/cluster_manager.cpp:5697-5722 | a claim is answered if and only if such a slot exists, by an UPDATE with the owner, its epoch and exactly its slots |
| PacketEffects.GossipAnswered | src/tendisplus/cluster/cluster_manager.cpp:5657-5722 | a master's gossip is answered if and only if, after it, a slot claimed belongs to another node known by a greater epoch; skipping the search when the bitmaps match loses no answer |
| PacketEffects.UpdateTakesSlot | src/tendisplus/cluster/cluster_manager.cpp:5812-5845 | a node that claimed a slot with too small an epoch loses it to the node the UPDATE names if and only if the UPDATE tells a greater epoch than the node is known by; one sent by the owner itself moves nothing, as its header has told the epoch |
| PacketEffects.HeardClaim | src/tendisplus/cluster/cluster_manager.cpp:1000-1023 | a master's claim, heard, takes every slot that is unassigned or whose owner is known by a smaller epoch |
| PacketEffects.WinnerTakesSlots | src/tendisplus/cluster/cluster_manager.cpp:3167-3180 | after victory and takeover the winner is a master with a config epoch no smaller than the election's, and its next header gives it every slot of its old master in every view that knows the owner by a smaller epoch |
| PacketEffects.BumpIsNewest | src/tendisplus/cluster/cluster_manager.cpp:907-918 | after a bump no epoch known exceeds this node's, which is positive; if it changed it is above all of them |
| PacketEffects.AssignedSlots | src/tendisplus/cluster/cluster_manager.cpp:1155-1200 | exactly the slots asked for before the first unassigned one go to the node; the epoch changes only if all of them did and the node is this one, and then none known is greater |
| ClusterRuns.ApplySane | src/tendisplus/cluster/cluster_manager.cpp:5335-5850 | every step keeps every view and packet well formed and the set of nodes |
| EpochSafety.ReactEpochs | src/tendisplus/cluster/cluster_manager.cpp:5360-5850 | handling any packet with consistent epochs keeps the view consistent, lowers no epoch and replies consistently |
| EpochSafety.LocalEpochs | src/tendisplus/cluster/cluster_manager.cpp:3149-3176 | so does every step of a node's own: bump, set-config-epoch, assignment, election steps, takeover |
| EpochSafety.EpochsOverRuns | src/tendisplus/cluster/cluster_manager.cpp:907-918 | in every state of every run each config epoch in a view or packet is at most the matching current epoch, and between any two states no epoch of any view decreases |
| ElectionSafety.NewVote | src/tendisplus/cluster/cluster_manager.cpp:2690-2810 | a vote cast now is for an epoch greater than those of all votes the voter has cast |
| ElectionSafety.ElectionsOverRuns | src/tendisplus/cluster/cluster_manager.cpp:2690-2810 | the election invariant holds in every state of every run from an initial state |
| ElectionSafety.CountedVotesAreExact | src/tendisplus/cluster/cluster_manager.cpp:5771-5784 | in every state of every run a voter has voted at most once in an epoch; every ack counted after the request is a vote for this candidate in exactly its epoch, every ack counted before it is a vote of a smaller epoch, and the count is their number; so it is the number of votes of the epoch exactly if no ack was counted early |
| ElectionSafety.QuorumsMeet | src/tendisplus/cluster/cluster_manager.cpp:3014 | two sets of voters of quorum size have a voter in common |
| ElectionSafety.QuorumIsLeast | src/tendisplus/cluster/cluster_manager.cpp:3014 | a quorum is the least number of voters of which two disjoint sets cannot exist |
| ElectionSafety.OneWinnerPerEpoch | src/tendisplus/cluster/cluster_manager.cpp:3167-3180 | in every run two victories in one epoch against the same voters, each without early acks or with a quorum beside them, are the same candidate's |
| EarlyAcks.TwoWinnersInOneEpoch | src/tendisplus/cluster/cluster_manager.cpp:3077-3087 | a run with a failed master, its two replicas and two other masters as voters: one replica wins epoch 2 by the votes cast in it, the other by the acks of a round it had given up in epoch 1 |
| FailoverSafety.VotesAreDeserved | src/tendisplus/cluster/cluster_manager.cpp:2690-2810 | every vote of every run was cast by the handling of a request of that candidate for that epoch, in a view in which it met the conditions for a vote; unless the request was forced, the voter saw the candidate's master down |
| FailoverSafety.WinnersCarryTheirEpoch | src/tendisplus/cluster/cluster_manager.cpp:3167-3176 | in every state of every run, whoever has won an election has a config epoch no smaller than that election's |
| FailoverSafety.TakeOverIsHeard | src/tendisplus/cluster/cluster_manager.cpp:2922-2955 | in every run, when a winner replaces its master, every node that knows the owner of one of the old master's slots by a smaller epoch than the election's gives the slot to the winner on its next header |
| CollisionRepair.GossipRepairs | src/tendisplus/cluster/cluster_manager.cpp:5726-5732 | gossip between masters changes this node's config epoch only by a bump away from an epoch of a node with a greater name, to a value above all it knew |
| CollisionRepair.HeldIsPresent | src/tendisplus/cluster/cluster_manager.cpp:1070-1092 | if every epoch a node has left was also held by a node with a greater name, every epoch ever held is some node's now, or was in flight at the start |
| CollisionRepair.HeldBound | src/tendisplus/cluster/cluster_manager.cpp:1070-1092 | so n nodes have held at most n(n + 1)/2 epochs between them, and the stale ones |
| CollisionRepair.BumpsAreBounded | src/tendisplus/cluster/cluster_manager.cpp:1070-1092 | every run of gossip and UPDATE steps among n masters, in any order of delivery, holds at most n(n - 1)/2 bumps, and n more for every config epoch in a header in flight at its start; with nothing in flight that is at most 2^n - n - 1 |
| CollisionRepair.FreshHeaderBumps | src/tendisplus/cluster/cluster_manager.cpp:5726-5732 | a header sent now makes its receiver bump exactly if the config epochs are equal and the sender's name is greater |
| CollisionRepair.QuietIffDistinct | src/tendisplus/cluster/cluster_manager.cpp:1070-1092 | in every state of such a run no fresh header would cause a bump exactly if all config epochs differ |
| SlotConfluence.GossipClaims | src/tendisplus/cluster/cluster_manager.cpp:5605-5732 | gossip of a master has, whatever its stages do, just the effect of its claim: the sender is known by the claimed epoch and takes the slots it may take |
| SlotConfluence.UpdateMessageClaims | src/tendisplus/cluster/cluster_manager.cpp:5812-5845 | a relayed claim has the same effect if it is newer than what is known, and none on the slots otherwise |
| SlotConfluence.SkipIsHarmless | src/tendisplus/cluster/cluster_manager.cpp:5670-5676 | leaving out the update when the bitmaps match changes nothing |
| SlotConfluence.RebindRaises | src/tendisplus/cluster/cluster_manager.cpp:1000-1023 | a slot that changes owner goes to one known by a strictly greater epoch |
| SlotConfluence.HearAllKeeps | src/tendisplus/cluster/cluster_manager.cpp:1000-1023 | after any sequence of deliveries an owner is the first one or a claimant heard, and no claimant heard of that slot is newer |
| SlotConfluence.ConfluentIffYields | src/tendisplus/cluster/cluster_manager.cpp:1000-1023 | all orders of hearing every claimant, with repeats and relayed claims, bind every claimed slot to its highest-epoch claimant if and only if no present owner stands in the way |
| SlotConfluence.OwnedByClaimantMayNotSettle | src/tendisplus/cluster/cluster_manager.cpp:1000-1023 | a table of two slots owned by a claimant, claims within it, and a complete order that does not settle |
| SlotsReply.ReplyV2 | src/tendisplus/cluster/cluster_manager.cpp:1590-1635 | the single pass gives exactly the maximal runs of the slot table, in order |
| SlotsReply.NodeRuns | src/tendisplus/cluster/cluster_manager.cpp:1548-1580 | the loop over one bitmap gives exactly the maximal runs of that node |
| SlotsReply.ReplyV1 | src/tendisplus/cluster/cluster_manager.cpp:1528-1588 | node by node: exactly the maximal runs of the masters |
| SlotsReply.SameReply | src/tendisplus/cluster/cluster_manager.cpp:1528-1635 | both replies hold the same triples if every owner is a master |
| SlotsReply.Expands | src/tendisplus/cluster/cluster_manager.cpp:1590-1635 | the runs expand to the slot table, both ways |
| Migration.EntryCovers | src/tendisplus/replication/repl_util.cpp:467-616 | applying an entry of the task, or passing over another, keeps every key of the receiver at least as new as the position reached |
| Migration.ReplayCovers | src/tendisplus/replication/repl_util.cpp:467-616 | the same for any stretch of the log, also one replayed before |
| Migration.CoversAll | src/tendisplus/cluster/migrate_sender.cpp:585-598 | a receiver as new as a position after which the task's slots are not written holds exactly the source's data |
| Migration.SendSlotsBinlog | src/tendisplus/replication/repl_util.cpp:467-616 | the receiver has applied exactly the task's entries up to some point; the id returned is one it has applied; success means it has everything up to the end asked for or the end of the log, with the last of the task's entries acknowledged; without a failure on the network it succeeds |
| Migration.RetryVerdict | src/tendisplus/cluster/migrate_sender.cpp:443-510 | how the retry loop ends, from its attempts: left on success or stop, success exactly if an attempt succeeded, and otherwise what the last reconnect says |
| Migration.FalseSuccess | src/tendisplus/cluster/migrate_sender.cpp:430-515 | success without a delivered binlog is reported if and only if something was to send and every attempt failed with the last one followed by a reconnect |
| Migration.LostWrite | src/tendisplus/cluster/migrate_sender.cpp:430-515 | three lost connections with reconnects: success is reported and a write is missing |
| Migration.CatchupCovers | src/tendisplus/cluster/migrate_sender.cpp:430-515 | whatever fails, the receiver stays at least as new as the recorded position, which never goes back; a completed catch-up reaches its end |
| MigrateSender.ChunkMigrateSender.SendSnapshot | src/tendisplus/cluster/migrate_sender.cpp:348-412 | it succeeds if and only if no slot of the task is broken off; then, into a receiver without the task's slots, the snapshot is copied exactly; the position recorded is the one before it |
| MigrateSender.SnapshotCovers | src/tendisplus/cluster/migrate_sender.cpp:348-375 | a copy of the data as of a point not before the recorded position is as new as that position |
| MigrateSender.ChunkMigrateSender.CatchupBinlog | src/tendisplus/cluster/migrate_sender.cpp:430-515 | the retry loop, in place, gives the result, receiver and position of its specification; it succeeds if and only if there was nothing to send or the task was running at the last attempt, which succeeded or was lost and followed by a reconnect; the position is the last id acknowledged; a first attempt without failure succeeds |
| MigrateSender.ChunkMigrateSender.SendBinlog | src/tendisplus/cluster/migrate_sender.cpp:517-583 | the unlocked rounds keep the receiver as new as the recorded position; they go on until one fails, comes close enough or may not start, and succeed if and only if the last one succeeded and came close enough |
| MigrateSender.ChunkMigrateSender.SendLastBinlog | src/tendisplus/cluster/migrate_sender.cpp:585-610 | under the locks, success without a false one means that source and receiver are equal on the task's slots; success exactly as for a catch-up |
| MigrateSender.ChunkMigrateSender.SendChunk | src/tendisplus/cluster/migrate_sender.cpp:48-148 | "+OK" is sent if and only if the snapshot, the unlocked rounds, the locks, the last binlog and the version check succeeded, "-ERR" if and only if a later phase than the snapshot failed but for the locks, and never both; the task succeeds if and only if "+OK" was sent and answered and ownership is known or recorded to have moved, and after "+OK" the locks are released only then; the receiver that is told "+OK" holds exactly the source's data unless the last catch-up was a false success |
| Handover.StepClean | src/tendisplus/cluster/migrate_manager.cpp:602-636 | every step but the re-check keeps every claimed or claimable slot that the source still lists under the locks of a task |
| Handover.RecheckClean | src/tendisplus/cluster/migrate_manager.cpp:437-451 | a re-check keeps that exactly if nothing the source still lists of the task is or can be claimed |
| Handover.RecheckVerdict | src/tendisplus/cluster/migrate_manager.cpp:437-451 | a re-check clears the task if and only if the source lists none of its slots, fails it otherwise, and releases the locks either way |
| Handover.NoSplitOwnership | src/tendisplus/cluster/migrate_manager.cpp:437-451 | all states of a run are clean if and only if every re-check in it was safe, and then no slot is ever split |
| Handover.UnsafeRecheckSplits | src/tendisplus/cluster/migrate_manager.cpp:437-451 | an unsafe re-check splits a slot at once or with the next message |
| Handover.ClaimHeardIsSafe | src/tendisplus/cluster/migrate_sender.cpp:165-175 | a re-check is safe once the source has heard the destination's claim of the task's slots |
| Handover.SlowDestinationSplits | src/tendisplus/cluster/migrate_manager.cpp:1445-1488 | a run in which the destination handles migrateend after the re-check and slot 0 is split |
| SnapshotStream.MigrateBatch.Add | src/tendisplus/cluster/migrate_batch.cpp:24-36 | the buffer stays the encoding of the records waiting, and the counter their number with those sent |
| SnapshotStream.MigrateBatch.Send | src/tendisplus/cluster/migrate_batch.cpp:38-59 | the waiting records go out as one batch; an empty batch is not sent |
| SnapshotStream.SendRangeByBatch | src/tendisplus/cluster/migrate_sender.cpp:283-346 | the batches of a slot hold its records once and in order, each batch fits its size field, is sent as soon as it reaches the limit and not before, the last one excepted, and the count is right |
| SnapshotStream.SendRange | src/tendisplus/cluster/migrate_sender.cpp:197-281 | the same for the older way of sending one by one |
| SnapshotStream.SendSnapshot | src/tendisplus/cluster/migrate_sender.cpp:367-400 | the stream of all slots holds their records once and in order, ended by the end tag |
| SnapshotStream.ParseInverse | src/tendisplus/cluster/migrate_receiver.cpp:211-266 | parsing inverts the encoding of a batch |
| SnapshotStream.Receiver.PutSingleBatch | src/tendisplus/cluster/migrate_receiver.cpp:199-278 | a batch is stored as a whole exactly if it parses and all its records are accepted; otherwise nothing of it is stored or counted |
| SnapshotStream.ReceiveSnapshot | src/tendisplus/cluster/migrate_receiver.cpp:50-137 | the loop over the tags stores and counts what the stream leads to, on any bytes |
| SnapshotStream.ReceiveWire | src/tendisplus/cluster/migrate_receiver.cpp:50-137 | of a sender's stream exactly the items before the first refused one arrive, and the transfer succeeds exactly if every record is accepted |
| SnapshotStream.Transfer | src/tendisplus/cluster/migrate_sender.cpp:348-412 | sender and receiver together: the records of all slots arrive once and in order, and both counts agree |
| MigrateTasks.GroupByStore | src/tendisplus/cluster/migrate_manager.cpp:950-960 | the groups are the slots of each store in order, and no others |
| MigrateTasks.SplitTasks | src/tendisplus/cluster/migrate_manager.cpp:924-1008 | the tasks are of one store and bounded size, and their slots are a partition of the request |
| MigrateTasks.MigrateManager.CheckSlotOK | src/tendisplus/cluster/migrate_manager.cpp:734-767 | accepted exactly if all slots are this node's and in no task; the slots are listed once each |
| MigrateTasks.MigrateManager.Migrating | src/tendisplus/cluster/migrate_manager.cpp:667-703 | succeeds exactly if no slot is marked and the id is new; then the bitmap stays the disjoint union of the tasks |
| MigrateTasks.MigrateManager.Prepare | src/tendisplus/cluster/migrate_manager.cpp:924-1008 | a request that passes the check starts all of its tasks; the bitmap grows by exactly the request |
| MigrateTasks.MigrateManager.Erase | src/tendisplus/cluster/migrate_manager.cpp:419-422 | the exclusive or on erase clears exactly the finished task's slots |
| MigrateTasks.MigrateManager.Schedule | src/tendisplus/cluster/migrate_manager.cpp:350-452 | every task is looked at once and moves on as its state, the destination and garbage collection say; exactly the finished ones go, and a slot stays marked exactly if its task stays |
| MigrateTasks.GoneAfterThree | src/tendisplus/cluster/migrate_manager.cpp:386-452 | a task that has been sent is gone after three looks, whatever they find |
| MigrateTasks.WhatMovesATask | src/tendisplus/cluster/migrate_manager.cpp:350-452 | a look makes a task succeed if and only if it was clearing, its slots belong to the destination and were handed to garbage collection; fail if and only if its destination is down while it waits, or its slots do not belong to the destination or cannot be deleted; clear if and only if it was in the middle state with its slots moved |
| MigrateTasks.ErasedIff | src/tendisplus/cluster/migrate_manager.cpp:392-436 | exactly the tasks that succeeded or failed and are due are erased |
| MigrateTasks.MigrateManager.SendSlots | src/tendisplus/cluster/migrate_manager.cpp:602-636 | a finished sender leaves its task in the clearing state exactly if it succeeded, in the middle state exactly if it failed after "+OK", and otherwise waiting if nothing was sent and failed if something was; no other task and no slot changes |
| SlotGc.StoreTasks | src/tendisplus/cluster/gc_manager.cpp:86-116 | one store's pass yields maximal ranges of its deleting slots, in order, and misses none |
| SlotGc.GenerateTasks | src/tendisplus/cluster/gc_manager.cpp:86-116 | for any slot-to-store map the ranges, restricted to their stores, cover exactly the deleting slots of existing stores, are maximal and in order |
| SlotGc.NoOverlap | src/tendisplus/cluster/gc_manager.cpp:86-116 | no slot is covered by two tasks |
| SlotGc.GcManager.DeleteSlots | src/tendisplus/cluster/gc_manager.cpp:118-168 | refused exactly if a slot of the range and store is owned; otherwise exactly its records and bits go |
| SlotGc.GcManager.GcSchedule | src/tendisplus/cluster/gc_manager.cpp:51-82 | one round removes no record of an owned or unrequested slot, and everything requested if nothing requested is owned |
| ListStore.ListKey.PunchFromHead | src/tendisplus/commands/list.cpp:1152-1176 | the holes are exactly the first occurrences to remove, and what is not a hole is the list without them |
| ListStore.ListKey.PunchFromTail | src/tendisplus/commands/list.cpp:1152-1176 | the same from the tail |
| ListStore.ListKey.WidestGap | src/tendisplus/commands/list.cpp:1182-1194 | the first of the widest gaps between neighbouring holes |
| ListStore.ListKey.PackLeft | src/tendisplus/commands/list.cpp:1202-1228 | what lies left of the gap is moved up against it in order, no record being overwritten before it is read |
| ListStore.ListKey.PackRight | src/tendisplus/commands/list.cpp:1230-1256 | the same on the right |
| ListSpec.PackedBoth | src/tendisplus/commands/list.cpp:1202-1256 | with both sides packed, the records between the new bounds are what was to be kept, in order |
| ListStore.ListKey.LRem | src/tendisplus/commands/list.cpp:1100-1309 | the list loses its first or last occurrences, as many as the 32-bit count says, or all of them, keeps the order of the rest, has no record outside its bounds, and the number removed is returned |
| ListSpec.RemovesAsAsked | src/tendisplus/commands/list.cpp:1125-1168 | what LREM does is what its count asks for if and only if the count is not INT32_MIN or the value occurs at most 2^31 times |
| ListSpec.OneTooMany | src/tendisplus/commands/list.cpp:1125-1168 | a list of 2^31 + 1 equal elements of which INT32_MIN removes all instead of all but one |
| ListSpec.RemovedLastCount | src/tendisplus/commands/list.cpp:1152-1176 | removal from the tail takes as many as asked for, or as there are |
| ListSpec.RemoveFirstIs | src/tendisplus/commands/list.cpp:1152-1176 | removal from the head takes every occurrence up to some place, which holds as many as asked for or as there are, and leaves the rest as it was |
| ListSpec.RemoveLastIs | src/tendisplus/commands/list.cpp:1152-1176 | removal from the tail does the same from the other end |
| ListStore.ListKey.Push | src/tendisplus/commands/list.cpp:94-154 | the arguments end up at the head or tail one after the other; the -X forms do nothing on a missing list |
| ListStore.ListKey.Pop | src/tendisplus/commands/list.cpp:30-92 | the first or last element is returned and gone; the meta record goes with the last one |
| ListStore.RPopLPush | src/tendisplus/commands/list.cpp:432-585 | the last element is returned; one key: a rotation, even of one element; two keys: the element moves, and the elements of both together stay the same |
| ListStore.ListKey.LTrim | src/tendisplus/commands/list.cpp:608-754 | exactly the elements between the two positions stay, for all indices, negative and out of range |
| ListSpec.BetweenSlice | src/tendisplus/commands/list.cpp:731-748 | the elements between two positions are the slice with both ends clipped to the list |
| ListStore.ListKey.LInsert | src/tendisplus/commands/list.cpp:1330-1482 | no list, no pivot, or the value put in where 32-bit sizes let it land; everything else keeps its order |
| ListSpec.LandsRight | src/tendisplus/commands/list.cpp:1403-1458 | it lands beside the first pivot if and only if the side that is moved has fewer than 2^31 elements |
| ListSpec.LandsAtTheEnd | src/tendisplus/commands/list.cpp:1403-1458 | a list of 2^32 elements with the pivot in the middle, where a value put before the pivot ends up last, which is another list |
| ListSpec.WrongPlace | src/tendisplus/commands/list.cpp:1403-1458 | a new value in another place makes another list |
| HashStore.HashKey.HMSet | src/tendisplus/commands/hash.cpp:1132-1192 | the pairs are set in order, repeated fields included, the new fields are counted once, and the count invariant is kept; `SetHolds` says what the fields hold |
| HashStore.SetHolds | src/tendisplus/commands/hash.cpp:1132-1192 | a field named holds the value of the last pair that names it, whether it existed or not; every other field is as it was, and no other exists |
| HashStore.HashKey.HSetOne | src/tendisplus/commands/hash.cpp:1323-1381 | HSETNX keeps an existing field; the invariant is kept |
| HashStore.HashKey.HIncrBy | src/tendisplus/commands/hash.cpp:90-159 | fails exactly on a value that is no integer or a sum outside 64 bits, and changes nothing then |
| HashStore.HashKey.HMCas | src/tendisplus/commands/hash.cpp:872-961 | the last argument about each field counts; an error on any leaves everything as it was; the invariant is kept |
| HashStore.CasSucceedsIff | src/tendisplus/commands/hash.cpp:872-961 | it succeeds if and only if the last argument about each field can be carried out |
| HashStore.CasHolds | src/tendisplus/commands/hash.cpp:872-961 | a field named then holds the value of its last argument, or its sum with the old value; every other field is as it was |
| HashStore.HashKey.HDel | src/tendisplus/commands/hash.cpp:1420-1494 | the named fields go, each is counted once, and the meta record goes with the last one |
| HashStore.DelMembers | src/tendisplus/commands/hash.cpp:1420-1494 | after HDEL exactly the fields not named are left, with their values |
| HashStore.SumIsRight | src/tendisplus/commands/hash.cpp:915-931 | the unchecked 64-bit sum of HMCAS is right exactly where HINCRBY would not refuse it |
| HashStore.HashKey.PartialDelSubKeys | src/tendisplus/commands/command.cpp:614-730 | refused exactly for `deleteMeta` with a limited number; otherwise exactly the first fields the cursor meets go, as many as allowed or as there are, and their number, with the meta record, is returned in 32 bits; the count invariant holds afterwards if and only if nothing went or the meta record went with all fields |
| HashStore.CountAfter | src/tendisplus/commands/command.cpp:628-631 | why a limited number is refused: without the meta record the count is right exactly if all fields went, with it exactly if none did |
| HashStore.HashKey.Expire | src/tendisplus/commands/command.cpp:842-945 | many fields go in a range and few one by one; the invariant holds afterwards if and only if the number of fields reaches the setting or fits 32 bits, which every setting the server accepts ensures, and then nothing is left |
| Rdb.LenRoundTrip | src/tendisplus/commands/dump.cpp:64-91 | every 64-bit length, written anywhere in a payload, is read back with the right next position |
| Rdb.LenBytes | src/tendisplus/commands/dump.cpp:64-91 | a length takes the fewest bytes: six or fourteen bits with a mark above them, or a mark and four or eight bytes, most significant first |
| Rdb.StringRoundTrip | src/tendisplus/commands/dump.cpp:757-831 | so is every string |
| Ziplist.DisagreesExactly | src/tendisplus/commands/dump.cpp:369-383 | writer and reader disagree about the bytes to skip after an entry exactly for strings of 251 to 253 bytes, or of 247 to 250 after a long entry |
| Ziplist.ZiplistRoundTrip | src/tendisplus/commands/dump.cpp:1244-1325 | a ziplist without such entries before its last is read back |
| Ziplist.UnreadableZiplist | src/tendisplus/commands/dump.cpp:1244-1325 | a ziplist of letters with such an entry before its last is not |
| Ziplist.HeaderIsRight | src/tendisplus/commands/dump.cpp:384-387 | the size and the offset of the last entry in the header are right |
| Ziplist.DigitsInverse | src/tendisplus/commands/dump.cpp:1268-1316 | the digits written stand for the number and do not begin with a zero |
| Ziplist.IntegerRead | src/tendisplus/commands/dump.cpp:1268-1303 | two's complement integers of 8, 16, 32 and 64 bits are read as their decimal digits |
| Ziplist.Integer24Read | src/tendisplus/commands/dump.cpp:1280-1291 | one of 24 bits is read without its sign: right if and only if it is not negative |
| Ziplist.MinusOneRead | src/tendisplus/commands/dump.cpp:1280-1291 | minus one in 24 bits is read as 16777215 |
| Ziplist.ImmediateRead | src/tendisplus/commands/dump.cpp:1304-1316 | the numbers 0 to 12 are read from the first byte |
| ListDump.SplitConcat | src/tendisplus/commands/dump.cpp:447-475 | cutting a list into ziplists loses nothing and changes no order |
| ListDump.SplitFills | src/tendisplus/commands/dump.cpp:447-475 | every ziplist but the last is over a limit, of elements or of bytes counted in 32 bits, and none was before its last element |
| ListDump.DumpRestores | src/tendisplus/commands/dump.cpp:1334-1391 | a dump whose ziplists are readable is restored to the list |
| ListDump.RestoredExactly | src/tendisplus/commands/dump.cpp:1244-1325 | all lists with these element lengths are restored from their dumps if and only if no ziplist has such an entry before its last |
| ListDump.SafeLengths | src/tendisplus/commands/dump.cpp:406-489 | every list without elements of 247 to 253 bytes is restored |
| ListDump.Refused | src/tendisplus/commands/dump.cpp:910-933 | a payload that is too short, too new, altered or not a list's is refused |
| ListDump.TwoElementsLost | src/tendisplus/commands/dump.cpp:356-395 | a list of two elements that is dumped and not restored |
| ListSerializer.Buffer.Copy | src/tendisplus/utils/string.h:257-281 | bytes are written at the position, overwriting or growing the buffer, and the position moves on |
| ListSerializer.Buffer.SaveLen | src/tendisplus/commands/dump.cpp:64-91 | the bytes written are the encoding of the length |
| ListSerializer.Buffer.SaveString | src/tendisplus/commands/dump.cpp:93-102 | the bytes written are the encoding of the string |
| ListSerializer.FormatZiplist | src/tendisplus/commands/dump.cpp:356-395 | the loop with its back-filled header appends the encoded ziplist |
| ListSerializer.SaveChunks | src/tendisplus/commands/dump.cpp:447-475 | the loop over the elements appends the ziplists the list is cut into and counts them |
| ListSerializer.DumpObject | src/tendisplus/commands/dump.cpp:406-489 | the count, filled in last and realigned, stands right in front of the ziplists, whatever its size |
| ListSerializer.DumpList | src/tendisplus/commands/dump.cpp:104-141 | the finished payload from its begin on is the dump of the list |
| ListSerializer.DeserializeZiplist | src/tendisplus/commands/dump.cpp:1244-1325 | the reading loop gives what the reader's specification gives, on any bytes |
| ListSerializer.RestoreList | src/tendisplus/commands/dump.cpp:1334-1391 | checking the frame and reading the ziplists gives what the specification gives, on any payload |
| PagedScan.Scan | src/tendisplus/commands/command.cpp:385-428 | a page has no more than the records asked for and is exactly those from its start to the next cursor, or to the end of the range; it is full if a cursor follows |
| PagedScan.ScanAll | src/tendisplus/commands/command.cpp:385-428 | following the cursors ends and returns every record of the range once and in order |
| PagedScan.ScanChanging | src/tendisplus/commands/command.cpp:385-428 | if the store changes between pages, what is returned is the records between growing cuts, each page from the store it was read from and full unless the last; the iteration is complete if and only if the last cut is the end of the range, and then it holds every record that was there throughout exactly once |

## Left out

- Restart, RESET HARD and the reload of epochs and votes: runs are without them, as one vote per epoch is only kept in memory.
- Joining, handshake and forgetting of nodes during a run: the set of nodes of a run is fixed; forgetting is modelled on one node's state only (`DelNode`).
- Failure detection, PFAIL reports and the gossip section: marking a node as failed is a free step of the run model.
- FAIL packets on the state in memory: they are part of the runs, not of `PacketProcessing`.
- Manual failover, replica ranks and delays, and replica migration: they depend on clocks and replication offsets.
- The 16-bit width of the ack counter and of 64-bit epochs: counters are unbounded.
- The lists of replicas kept at each master, and node flags other than role, arbiter and failed.
- ElectionSafety.OneWinnerPerEpoch: both candidates must have counted against a size no smaller than the set of voters; the agreement of the nodes on that size is not modelled.
- SlotConfluence.ConfluentIffYields: claims are fixed and of masters other than the observer; changes of role during the exchange are covered by the runs, not here.
- CollisionRepair.BumpsAreBounded: roles do not change during repair.
- NodeState.ClusterState.SetMaster: the closing of this node's own migration tasks is left out.
- NodeState.ClusterState.SetSlots: the broadcast after an assignment is the `Ping` step of the run model.
- NodeState.ClusterState.DelNode: failure reports are not part of the state.
- NodeState.ClusterState.UpdateSlotsConfigWith: the replication and migration checks before the change of master are one boolean.
- PacketProcessing.HandleSlaveFailover: the clock comparisons are booleans, and the checks before the election that depend on replication are not modelled.
- Migration.SendSlotsBinlog: binlog ids are positions in the log, heartbeats and rate limits are left out, and a transaction writes keys of one slot.
- MigrateSender.ChunkMigrateSender.SendSnapshot: the receiver's store changes as a whole slot at a time; the bytes are in `SnapshotStream`.
- MigrateSender.ChunkMigrateSender.SendChunk: acquiring the chunk locks one by one is one event, the point from which no client writes the slots.
- Handover.NoSplitOwnership: one source and one destination; a third owner of a slot, and a repeated readymigrate of a task that has been sent, are not modelled.
- MigrateTasks.MigrateManager.Migrating: on failure the marks already set stay, as in the code; the invariant is claimed for success only.
- MigrateTasks.MigrateManager.Schedule: clocks and the look at the cluster are parameters; success and failure lists are left out.
- Stopping and restarting of tasks, and the receiver's scheduler.
- SnapshotStream.Receiver.PutSingleBatch: the TTL index entries it adds are left out, a batch that ends inside a field reads as a failure, and storage does not fail.
- SnapshotStream.ReceiveSnapshot: the answers to the marks and stopping in the middle are left out.
- SnapshotStream.Transfer: the answers to the marks and stopping in the middle are left out.
- ListStore.ListKey.LRem: the count is the parsed one; parsing keeps the low 32 bits of a longer argument.
- ListStore.ListKey.Push: record numbers are unbounded; the wrap at 2^64 is not modelled.
- ListStore.ListKey.LTrim: the deletion in several transactions is one update.
- TTLs, versions and CAS numbers of meta records, and the locks and retries around a command.
- ListSerializer.RestoreList: the result is the sequence of elements; pushing them into the store is `Push`. Integer and LZF encodings of a string read as a failure, and reads beyond the payload, which the code leaves undefined, too.
- ListDump.RestoredExactly: elements are shorter than 2^32 - 10 bytes and fewer than 2^64, and the checksum is any function.
- ListSerializer.DumpList: the version prefix of a dump is left out.
- Dumps of types other than lists.
- PagedScan.Scan: a cursor is the place of a record; its text form and malformed cursors are left out.
- HashStore.HashKey.HMCas: the sum that overflows, which the code leaves undefined, wraps; versions are one boolean.
- HINCRBYFLOAT, whose sum is a floating-point number, and the commands that only read.
- Sockets, sessions, worker pools, RocksDB, JSON, logging, statistics and argument parsing.
