# Majula core: a Dafny model and its proofs

Majula is a Go messaging mesh. Its `core/` directory replicates state with Raft, tunnels byte streams
through a sliding-window protocol (FRP), routes messages hop by hop over shortest paths, floods
subscriptions, keeps an insertion-ordered key-value structure with a replayable log, and frames messages
on TCP and KCP connections. This project models those six parts and proves what they are for.

`dafny verify dfyconfig.toml` checks everything.

## How it is built

Every component that changes its state in place is a class (`RaftCore`, `RaftLearner`, `Storage`,
`StreamStub`, `WindowBuffer`, `OrderedKV`, `Node`) whose methods have the loops and branches of the Go code.
Each method is proved equal to a function on values, and the functions are what the lemmas and the step
systems speak about. A protocol is a step system: one handler is one atomic step, and a whole run is a
sequence of states and steps.

| files | subject |
|---|---|
| `RaftTypes`, `RaftLog`, `Selection` | log entries, storage, taking in entries, selecting the median |
| `RaftNode`, `RaftCore`; `LearnerNode`, `RaftLearner` | core nodes and learners: functions, then the classes proved against them |
| `RaftEffects`, `AppendEffects` | what each handler does, told from the fields before and after and from the messages, without those functions' bodies |
| `RaftSystem`, `RaftElection`, `RaftVotes`, `RaftLogMatching`, `RaftShape` | a whole group over a network that loses, duplicates and reorders |
| `LongFollower`, `UncleanCrash`, `ThreeNodes` | runs of five and of three nodes that reach what one would not expect |
| `Replay`, `CrashRecovery` | re-applying a log, and crashes at every write while committed entries are applied |
| `WindowBuffer`, `StreamStub`, `StreamDelivery`, `StaleAcks` | the ring buffer, one stream stub, one direction of a stream, a run that loses a chunk for good |
| `Graph`, `Router`, `RoutingTable`, `Forwarding` | walks, the Dijkstra search, next hops, forwarding across all nodes |
| `Message`, `Flooding`, `FloodCoverage`, `Node` | message keys, floods over whole runs, the mutable node |
| `OrderedKV`, `ReplayOrder` | the ordered key-value structure and what replays do to it |
| `FrameCodec`, `EdgeList` | framing on a byte stream, the edge-list parser |

## Main results

* Raft, as in "In Search of an Understandable Consensus Algorithm (Extended Version)", Figure 3:
  `ElectionSafety` for every run, crashes included; `LogMatching`, `InFlightMatching` and `LeaderAppendOnly`
  for every run in which a crashing core node reads back the log it had, and `UncleanCrashBreaksMatching`, a run
  with one other crash after which Log Matching is violated. `LeaderWasNotBehind`: over every run no vote that made a
  leader came from a node whose log was ahead.
* Raft, handler by handler: `VoteGrantedIff`, `ReplyElectsIff`, `LeaderCommitsIff` (when a leader commits, and that it
  then must), `FollowerCommitsIff`, `RefusalMovesNext`; for core nodes and learners what is refused and what is taken in
  (`CoreTakesIn`, `LearnerTakesIn` and beside them the refusals), and the state key by key (`AppliedIffResult`).
* FRP: `InOrderDelivery` and `NeverAborts` for every run, late acknowledgements that move the send window
  back included; `SenderRetention` when acknowledgements arrive in order; `StaleAcksLoseChunks`, a run with the
  source's window size in which it fails otherwise, `AckKeepsNumberIff`, which says of every number when it is kept, and
  `LostForGood`: however the stream goes on, a number the window has lost is not answered again.
* Routing: `Node.BuildRoutingTable` ends with the first hop of a true shortest walk for every target;
  `ForwardingArrivesIff` says exactly when a message arrives; `WalkBackEndsIff` that the walk over `prev`
  ends exactly for reachable targets.
* Flooding: `HandledAtMostOnce`, `FloodsEnd`, and when nothing is left `FloodsCoverExactly`: a node lists exactly those whose
  announcement is among the steps and who are heard.
* Recovery: `CoreCrashRecovers` and `LearnerCrashRecovers` for a crash at any state or metadata write of a commit, a
  leader's own commits included (`LeaderCrashesAsFollower`), and then at any write of each restart, any number of times;
  `LogCrashKeepsState` and `DeleteCrashIff` for the writes to the log; `CoreRestartIsExactIff`,
  `LearnerRestartIsExactIff`, `ReplayIsRightIff`, `LearnerLogAgreement`, `RestartAfterMessageIff`.
* OrderedKV: index agreement in every method, `ListRefinesMap`, `ReplayAgainSameMap`, `ReplayAgainSameOrderIff`.
* Codec and parser: `CodecRoundTripIff` for any split of the stream, `AcceptedTextIsJoin`, `NamesParseBackIff`.

## Where the code does less than one might expect

Each of these is proved, with the input or the exact condition.

* A stale acknowledgement moves the send window back (core/FRPStreamStub.go:171), and the next one may then clear
  chunks nobody has received. `StaleAcksLoseChunks` is such a run; a number above the acknowledgement is kept exactly
  when it is below the old window's start plus its size (`AckKeepsNumberIff`). The chunk lost there stays lost
  (`LostForGood`), and unless an old packet of it arrives the stream never gets past it (`LostStalls`).
* A core node truncates its log in memory only (core/Raft.go:543-545). If `n` is its last stored index, a restart after
  a message reads back another log exactly when the log in memory then ends below `n` (`RestartAfterMessageIff`,
  `CoreReloadsItsLogIff`): the suffix cut off returns, and neither heartbeats nor entries already known mend it
  (`TruncatedSuffixReturns`). In a group this breaks Log Matching (`UncleanCrashBreaksMatching`).
* Between the first state write of a commit and the metadata behind it a core node's store is ahead of its own commit
  index, and a restart leaves it so until the next commit (`RestartAheadOfItsCommit`, on a node taken from a run); at
  every other write a restart is exact (`CoreRestartIsExactIff`). A learner stores its metadata only behind the whole
  batch, so its restart is exact there, and before it exactly when the writes so far together change nothing
  (`LearnerRestartIsExactIff`).
* `DeleteLogsFrom` deletes entry by entry, and a crash in between leaves a log without a gap exactly when the entries
  gone so far are the last ones (`DeleteCrashIff`); `CrashAmongDeletes` is the least case in which they are not.
* The value `advanceCommitIndex` selects is backed by a strict majority for every input exactly when the number of
  indexes is odd: `MedianIsMajorityIffOdd`.
* `advanceCommitIndex` indexes its log beyond the end exactly when half of the collected indexes, or more, are beyond
  log and commit index (`AdvancePanicsIff`), and a leader can get there without any crash: `AdvancePanicHappens` is such
  a run of three nodes, in which two messages of an earlier term arrive late and are answered in the new term.
* A success reply carries the follower's own last index (core/Raft.go:562-563). The leader can then not send to this
  follower exactly when that index is beyond its own log (`LongerFollowerStopsSending`). By the same condition a later
  reply with an index inside the log mends it; proposals alone do so exactly when they take the log that far
  (`SendingResumesIff`). `LongerFollowerHappens` is a run of five nodes that gets there.
* The loop over `prev` of the route builder never ends for a node that cannot be reached: `WalkBackEndsIff`,
  `LoneSourceNeverEnds`, and in its least case `ThirdNodeNeverEnds`.
* Replaying up to a commit index below what had reached the store can be wrong: `ReplayBelowCrashPointFails`.
* A second `ReplayLog` keeps the map but not always the order: `SecondReplayReorders`, `ReplayAgainSameOrderIff`.
* An empty message has no frames and is never received: `CodecRoundTripIff`. Frames above 2^24+3 bytes overflow
  the length field: `LargeFrameRoundTripIff`.

## Model

| member | source | states |
|---|---|---|
| WindowBuffers.DistinctSlots | core/FRPStreamStub.go:48-60 | two numbers of one window never share a slot |
| WindowBuffers.PutIsMapUpdate | core/FRPStreamStub.go:48-60 | storing is a map update for a number in the window, nothing for any other |
| WindowBuffers.LookupIsMapLookup | core/FRPStreamStub.go:65-75 | reading is map lookup |
| WindowBuffers.ClearRangeSlot | core/FRPStreamStub.go:161-172 | the removal loop empties exactly the slots some visited number maps to |
| WindowBuffers.AdvanceIsMapRemoval | core/FRPStreamStub.go:80-92 | advancing removes the first number if it is there, and nothing else |
| WindowBuffers.BundleAdvanceIsMapRemoval | core/FRPStreamStub.go:96-114 | bulk advance removes the filled run at the front and stops at the first gap or past the bound |
| WindowBuffers.RemoveUpToIsMapRemoval | core/FRPStreamStub.go:161-172 | removal keeps exactly the numbers above its bound as long as the window does not move back |
| WindowBuffers.RemoveBackwardsAliases | core/FRPStreamStub.go:161-172 | after moving back, an old number answers with the chunk stored one window later |
| WindowBuffers.WindowBuffer.constructor | core/FRPStreamStub.go:33-44 | a new buffer is the empty window at its start |
| WindowBuffers.WindowBuffer.Put | core/FRPStreamStub.go:48-60 | in-place `Put` equals the window function, and reports whether the number fits |
| WindowBuffers.WindowBuffer.Get | core/FRPStreamStub.go:65-75 | answers what the map holds, for any number |
| WindowBuffers.WindowBuffer.Advance | core/FRPStreamStub.go:80-92 | equals the window function; true exactly when the first number was there |
| WindowBuffers.WindowBuffer.BundleAdvanceUpTo | core/FRPStreamStub.go:96-114 | the loop equals the window function and counts how far it moved |
| WindowBuffers.WindowBuffer.IsFilled | core/FRPStreamStub.go:119-128 | true exactly when the map has the number |
| WindowBuffers.WindowBuffer.RemoveUpTo | core/FRPStreamStub.go:161-172 | the loop equals the window function, moves back included |
| WindowBuffers.WindowBuffer.CanPut | core/FRPStreamStub.go:199-204 | true exactly for the numbers of the window |
| StreamStubs.GapsAreLowestMissing | core/FRPStreamStub.go:394-405 | the requested numbers are the lowest missing ones of the range, ascending, cut at the limit |
| StreamStubs.DrainDelivers | core/FRPStreamStub.go:379-392 | the delivery loop hands over exactly the consecutive chunks present and stops at the first gap |
| StreamStubs.ReceiveKeepsDrained | core/FRPStreamStub.go:366-406 | after every packet the window starts above what was delivered, that number is missing, and nothing else is lost |
| StreamStubs.NoProgressAsksForGaps | core/FRPStreamStub.go:394-406 | an accepted packet without progress asks for the first at most 100 missing numbers below it, starting right above what was delivered |
| StreamStubs.RequestLoopAsksForGaps | core/FRPStreamStub.go:394-405 | skipping numbers asked for lately leaves the rest of those requests as they are |
| StreamStubs.RequestsAreFresh | core/FRPStreamStub.go:394-405 | what is requested is exactly the gaps not asked for lately, ascending |
| StreamStubs.PlaceDecides | core/FRPStreamStub.go:313-331 | a chunk is put and sent if its number is in the window, waits if it is above, and the stream aborts if it is below |
| StreamStubs.AcknowledgeForgets | core/FRPStreamStub.go:449-465 | an acknowledgement in order makes the window forget the numbers up to it and no other |
| StreamStubs.StreamStub.TakeChunk | core/FRPStreamStub.go:305-312 | a chunk read gets the next number |
| StreamStubs.StreamStub.PlaceChunk | core/FRPStreamStub.go:313-331 | put and send, wait, or abort, as the window decides |
| StreamStubs.StreamStub.OnAck | core/FRPStreamStub.go:449-465 | an acknowledgement removes up to its number and is remembered, whatever its order |
| StreamStubs.StreamStub.OnResendRequest | core/FRPStreamStub.go:672-694 | answers with what the window holds, or not at all |
| StreamStubs.StreamStub.OnData | core/FRPStreamStub.go:366-422 | new receiver state, requests and acknowledgement for every packet, number and clock reading |
| StreamStubs.StreamStub.Deliver | core/FRPStreamStub.go:379-392 | the loop equals the delivery function |
| StreamStubs.StreamStub.RequestGaps | core/FRPStreamStub.go:394-405 | the loop sends exactly the requests for the lowest missing numbers |
| StreamStubs.StreamStub.SendAck | core/FRPStreamStub.go:408-430 | acknowledges at once, or after the threshold or the timeout |
| StreamDelivery.AnswerIsGenuineOrOld | core/FRPStreamStub.go:672-694 | whatever the send window answers is the right chunk, or the number was delivered already |
| StreamDelivery.InvNext | core/FRPStreamStub.go:305-465 | every step of either end, over any network, keeps the invariant |
| StreamDelivery.InOrderDelivery | core/FRPStreamStub.go:366-396 | in every state of every run the chunks handed to the writer are exactly the first `recvSeq` chunks taken, in order |
| StreamDelivery.NeverAborts | core/FRPStreamStub.go:313-331 | no acknowledgement is ahead of the receiver, and the sender never falls behind its window |
| StreamDelivery.ReceiverStaysDrained | core/FRPStreamStub.go:379-392 | in every state of every run the receive window starts at the first undelivered number, which is missing |
| StreamDelivery.SenderRetention | core/FRPStreamStub.go:672-694 | with acknowledgements in order every unacknowledged number is answered with exactly the packet first sent |
| StreamDelivery.AckKeepsNumberIff | core/FRPStreamStub.go:161-172 | a number above the acknowledgement, held in its slot, is kept if below the old start plus the size, and lost otherwise |
| StaleAcks.ManyRounds | core/FRPStreamStub.go:305-465 | any number of chunks can be sent, delivered and acknowledged one after the other |
| StaleAcks.StaleAcksLoseChunks | core/FRPStreamStub.go:449-465 | with windows of 7024 a reachable state in which late acknowledgements made the sender lose a chunk nobody has or has acknowledged |
| StaleAcks.LostForGood | core/FRPStreamStub.go:672-694 | however the stream goes on from a state in which an undelivered number is lost, no resend of it is answered and no new packet of it is sent until it is delivered |
| StaleAcks.LostStalls | core/FRPStreamStub.go:385-440 | without a packet of the number the receiver never gets past it |
| RaftTypes.LoadGivesLogBack | core/RaftStorage.go:110-128 | loading the stored form of a log gives the log |
| RaftTypes.LoadIsSorted | core/RaftStorage.go:110-128 | entries stored under their own index load in ascending order of it, so the sort behind the iteration changes nothing |
| RaftTypes.LoadDense | core/RaftStorage.go:110-128 | a gap-free store loads as a log indexed from 1 |
| RaftStorage.Storage.SaveLog | core/RaftStorage.go:54-65 | stores under the entry's index and touches nothing else |
| RaftStorage.Storage.DeleteLogsFrom | core/RaftStorage.go:211-229 | the key loop deletes exactly the entries from the start on, and at every moment before only some of them are gone |
| RaftStorage.Storage.LoadLogs | core/RaftStorage.go:110-128 | the key loop returns the stored entries in key order, ascending by their own index where each is stored under it |
| RaftStorage.Storage.SaveMeta | core/RaftStorage.go:135-147 | replaces the metadata only |
| RaftStorage.Storage.LoadMeta | core/RaftStorage.go:152-167 | the metadata stored, zeros if none |
| RaftStorage.Storage.PutState | core/RaftStorage.go:174-180 | map update of the key-value state |
| RaftStorage.Storage.DeleteState | core/RaftStorage.go:185-189 | map removal from the key-value state |
| RaftLog.AbsorbSlice | core/Raft.go:533-552 | taking in a slice of a matching log leaves the log, or makes it exactly that log's prefix |
| RaftLog.AbsorbShape | core/Raft.go:533-552 | what is in front stays, the message's terms are there, indices stay gap-free |
| RaftLog.AbsorbKnown | core/Raft.go:533-552 | entries that are all there change nothing |
| RaftLog.AbsorbInStep | core/Learner.go:140-165 | deleting on disk too keeps store and log the same |
| RaftLog.AbsorbCovers | core/Raft.go:533-552 | without that the store still agrees with the log as far as the log goes |
| RaftLog.AbsorbLength | core/Raft.go:533-552 | a log keeps its length if all entries are known, and ends with the message otherwise |
| RaftLog.CoreReloadsItsLogIff | core/Raft.go:533-552 | from any store that covers the log: a restart reads back the log in memory if and only if that log still reaches the last stored index |
| RaftLog.TruncatedSuffixReturns | core/Raft.go:543-545 | a log, an entry and a heartbeat after which the suffix cut off in memory is read back |
| RaftShape.RestartAfterMessageIff | core/Raft.go:496-552 | the same for every message and branch of the handler |
| RaftLog.ApplyEntriesAppend | core/Raft.go:190-228 | applying two batches in turn is applying their concatenation |
| RaftLog.LastWriteDecides | core/Raft.go:197-201 | the last put or delete of a key in a batch decides: its value after a put, no such key after a delete |
| RaftLog.AppliedIffResult | core/Raft.go:190-228 | a state is what a batch makes of another if and only if every key has what its last writer says, or what it had if nothing writes it |
| RaftLog.AbsorbMerges | core/Raft.go:537-552 | if all entries are known the log stays; otherwise the message replaces everything from its first new entry on |
| RaftLog.AbsorbStores | core/Raft.go:545-550 | on a core node's disk exactly the entries from the first new one on are written, everything else stays |
| Selection.QuickSelect | core/Raft.go:731-753 | terminates with the k-th smallest value for every sequence of pivots |
| Selection.KthUnique | core/Raft.go:731-753 | that value does not depend on the pivots |
| Selection.CountBelowPartition | core/Raft.go:736-746 | counting below a value splits over the three parts of a partition |
| Selection.MedianQuorum | core/Raft.go:718-724 | at least n - n/2 indexes reach the selected one, a strict majority for odd n |
| Selection.MedianIsMajorityIffOdd | core/Raft.go:718-724 | strict majority for all inputs of length n if and only if n is odd |
| RaftNode.CommitNeedsMedian | core/Raft.go:706-728 | the commit index moves only forward, to an entry of the current term that at least n - n/2 indexes have reached |
| RaftNode.AdvancePanicsIff | core/Raft.go:724 | the index panic happens if and only if at least half of the collected indexes are beyond log and commit index |
| RaftNode.ApplyRunsEntries | core/Raft.go:190-228 | applying runs exactly the newly committed entries, once each and in order |
| RaftNode.HandleRequestVoteEffect | core/Raft.go:286-322 | a vote once cast in a term stays, terms never fall, and the term and vote on disk are those in memory |
| RaftNode.HandleRequestVoteResponseEffect | core/Raft.go:329-368 | one reply adds at most its sender to the votes, and only a majority makes a leader |
| RaftNode.HandleAppendEntriesEffect | core/Raft.go:496-565 | an AppendEntries message leaves term, vote and role, or makes the node step down |
| RaftNode.HandleAppendEntriesResponseEffect | core/Raft.go:608-653 | a reply leaves term, vote, role and log, or makes the node step down |
| RaftNode.TrackUnion | core/Raft.go:1087-1112 | peers and learners start being tracked independently of the order of the two loops |
| RaftEffects.VoteGrantedIff | core/Raft.go:286-322 | a vote is given if and only if the term is not over, the vote is free or already the candidate's, and the own log does not end in a later term, or in the same term at a higher index; and what term, vote, role and metadata then are |
| RaftEffects.EmptyLogVotes | core/Raft.go:759-769 | the same spelled out for a voter without entries |
| RaftEffects.ElectionAsksEveryone | core/Raft.go:391-427 | a candidate votes for itself in the next term, stores both, and asks exactly the other peers with the end of its log |
| RaftEffects.ReplyElectsIff | core/Raft.go:352-367 | a reply of the term is counted, and makes its receiver leader if and only if it is a candidate and more than half of the peers have now granted |
| RaftEffects.OtherTermIsNotCounted | core/Raft.go:339-350 | a reply of an older term changes nothing, one of a later term makes a follower of that term |
| RaftEffects.NewLeaderTracks | core/Raft.go:1087-1112 | exactly the other peers and learners start at the end of the log, with nothing matched |
| RaftEffects.ReachedByHalfExists | core/Raft.go:708-722 | there is exactly one highest index that at least half of the leader and the peers it tracks have reached |
| RaftEffects.LeaderCommitsIff | core/Raft.go:706-729 | with that index `m`: if it is above the commit index, in the log and its entry of the term, the node commits to `m` and applies the entries in between; if it is above both, the access panics; otherwise nothing changes |
| RaftEffects.FollowerCommitsIff | core/Raft.go:554-559 | a higher commit index in a message is followed as far as the log goes, any other changes nothing |
| RaftEffects.AppliedStateIs | core/Raft.go:190-228 | the state after applying, key by key |
| RaftEffects.LastCommandDecides | core/Raft.go:202-217 | the last committed command about a learner decides whether it is sent entries, and from where |
| RaftEffects.UntouchedLearnerStays | core/Raft.go:202-217 | a learner no command is about is told what it was told before |
| RaftEffects.RefusalMovesNext | core/Raft.go:636-653 | a refusal with a term moves the next index right behind the leader's last entry of that term, or to the reported index if there is none; without one it goes one back, not below 1 |
| RaftEffects.SuccessIsRecorded | core/Raft.go:628-636 | a success is recorded as the reported index, or as all that was sent, and the leader then commits what it can |
| RaftEffects.OtherRepliesAreDropped | core/Raft.go:619-626 | replies of other terms, or to one that does not lead, change at most the term |
| RaftEffects.SendCarries | core/Raft.go:669-703 | what is sent is everything from the next index on, the term before it and the commit index; it panics if and only if the next index is below 1 or more than one behind the end |
| RaftEffects.HeartbeatCarries | core/Raft.go:467-492 | a heartbeat has no entries, and the previous term where the log has that index |
| RaftEffects.ProposeAppends | core/Raft.go:817-834 | a leader appends the command with its term behind the log, in memory and on disk; any other node changes nothing |
| RaftEffects.StartReadsDisk | core/Raft.go:125-172 | from any gap-free store with no negative applied index: when a start panics, and what term, vote, log, counters and state it ends with |
| AppendEffects.CoreRefusesOldTerm | core/Raft.go:504-507 | a message of an older term changes nothing and is refused |
| AppendEffects.CoreRefusesGap | core/Raft.go:515-520 | one that starts behind the end is refused with the index right behind that end |
| AppendEffects.CoreRefusesConflict | core/Raft.go:522-535 | one whose previous entry has another term is refused with that term and where its run begins, and the run and what follows is cut off in memory and on disk |
| AppendEffects.CoreTakesIn | core/Raft.go:537-565 | any other is taken in: the log, the store, the commit index, the state and the answer |
| RaftCores.RaftCore.constructor | core/Raft.go:125-172 | what a start reads back from storage and re-applies, and what was on disk before each of its writes |
| RaftCores.RaftCore.StartElection | core/Raft.go:391-427 | new state and the vote requests to all other peers |
| RaftCores.RaftCore.HasMajorityVotes | core/Raft.go:947-959 | the counting loop decides by the number of granted votes |
| RaftCores.RaftCore.HandleRequestVote | core/Raft.go:286-322 | new state, storage and reply for every request; `VoteGrantedIff` says when it grants |
| RaftCores.RaftCore.HandleRequestVoteResponse | core/Raft.go:329-368 | new state and storage for every reply |
| RaftCores.RaftCore.SwitchToFollower | core/Raft.go:1064-1072 | new term, no vote, both stored |
| RaftCores.RaftCore.SwitchToCandidate | core/Raft.go:1075-1084 | term raised by one, vote for itself, both stored |
| RaftCores.RaftCore.SwitchToLeader | core/Raft.go:1087-1112 | next and match index of every peer and learner |
| RaftCores.RaftCore.ApplyLogToStateMachine | core/Raft.go:190-228 | the loop equals the apply function; the disk goes through exactly the stated contents, the state of each entry written before the metadata |
| RaftCores.RaftCore.ApplyNext | core/Raft.go:192-227 | one turn: new state, and what was on disk before each of its writes |
| RaftCores.RaftCore.FollowCommit | core/Raft.go:554-559 | the commit index a message brings, what is applied, and what was on disk before each write |
| RaftCores.RaftCore.HandleAppendEntries | core/Raft.go:496-565 | new state, storage and reply for every contiguous message |
| RaftCores.RaftCore.AppendAll | core/Raft.go:533-552 | the loop over the entries in memory and on disk; before each write the disk holds what some of the entries made of it |
| RaftCores.RaftCore.HandleAppendEntriesResponse | core/Raft.go:608-653 | new state for every reply, and when it panics |
| RaftCores.RaftCore.FindLastIndexOfTerm | core/Raft.go:658-665 | the backward loop equals its function |
| RaftCores.RaftCore.CollectIndexes | core/Raft.go:708-719 | the loop collects the leader's own last index and those of the peers it tracks, in order |
| RaftCores.RaftCore.AdvanceCommitIndex | core/Raft.go:706-728 | the new commit index whatever pivots were chosen, when it panics, and what was on disk before each write |
| RaftCores.RaftCore.SendAppendEntriesTo | core/Raft.go:669-703 | the message sent, and when its slice panics |
| RaftCores.RaftCore.SendHeartbeat | core/Raft.go:467-492 | the message sent |
| RaftCores.RaftCore.ProposeCommand | core/Raft.go:817-862 | a leader appends one entry of its term, in memory and on disk, and starts sending to all other peers and learners; others do nothing |
| RaftElection.QuorumsAgree | core/Raft.go:947-959 | two majorities for one term name the same candidate |
| RaftElection.LeaderHasQuorum | core/Raft.go:329-368 | whoever leads after a step has a majority of really cast votes |
| RaftElection.ElectionNext | core/Raft.go:286-427 | every step of every node keeps the election invariant and no term changes its leader |
| RaftElection.ElectionSafety | core/Raft.go:286-427 | over every run, with crashes that restart from stored term and vote, no term ever has two leaders |
| RaftVotes.LeaderWasNotBehind | core/Raft.go:286-427 | over every run, crashes included, a leader has a majority each of which, itself aside, voted in an earlier step with a log not ahead of the one the leader had when, earlier still, it asked |
| RaftElection.StoredVoteIsKept | core/RaftStorage.go:135-167 | the stored term never falls and a stored vote is never replaced within its term |
| RaftLogMatching.AbsorbFromLeader | core/Raft.go:509-552 | a slice taken in after a successful consistency check keeps the log well-founded |
| RaftLogMatching.LogNext | core/Raft.go:496-834 | every step keeps the log invariant, a crash if the log is read back, and leaders' logs only grow |
| RaftLogMatching.LogMatching | core/Raft.go:496-552 | entries of one index and term, in any logs at any two moments, are equal and preceded by the same entries |
| RaftLogMatching.InFlightMatching | core/Raft.go:669-703 | the same between a log and an AppendEntries message in flight, its previous term included |
| RaftLogMatching.LogsAreOrdered | core/Raft.go:817-834 | entry i sits at index i+1 and terms never decrease |
| RaftLogMatching.LeaderAppendOnly | core/Raft.go:817-834 | while it leads, a leader's log only grows |
| RaftShape.AppendEntriesNeverPanics | core/Raft.go:496-552 | in every run, crashes included, an AppendEntries message that arrives is handled without an index out of range |
| RaftShape.LongerFollowerStopsSending | core/Raft.go:622-653 | whatever a success reply commits, sending to its follower panics next if and only if the reported index is beyond the leader's log |
| RaftShape.SendingResumesIff | core/Raft.go:669-703 | after any proposals sending works again if and only if the log has grown to the index before the next one |
| LongFollower.Win | core/Raft.go:286-427 | a node of five wins an election with two others whose logs are not ahead |
| LongFollower.LongerFollowerHappens | core/Raft.go:562-563 | for any five nodes a crash-free run to a leader that gets such a reply and cannot send |
| UncleanCrash.UncleanCrashBreaksMatching | core/Raft.go:543-545 | for any five nodes a run with one crash after which two logs share an entry and differ before it |
| LearnerNode.AppendKeepsLogsAgree | core/Learner.go:108-178 | one message keeps store and log the same |
| LearnerNode.LearnerLogAgreement | core/Learner.go:108-178 | over every life of messages and restarts the store holds exactly entries 1..n, and loading gives the log back |
| LearnerNode.RestartGivesLogBack | core/Learner.go:47-84 | a restart reads back the log it had |
| LearnerNode.SuccessfulAppendIsIdempotent | core/Learner.go:108-178 | a duplicate of an accepted message changes nothing and gets the same answer |
| LearnerNode.ApplyRunsEntries | core/Learner.go:253-270 | applying runs exactly the newly committed entries, once each and in order |
| AppendEffects.LearnerRefusesGap | core/Learner.go:126-130 | a message that starts behind the end is refused with the index right behind that end |
| AppendEffects.LearnerRefusesConflict | core/Learner.go:133-147 | one whose previous entry has another term is refused, and its run and what follows is cut off in memory and on disk |
| AppendEffects.LearnerTakesIn | core/Learner.go:149-178 | any other is taken in: the merged log, the same on disk, the commit index, the state and the answer, which reports an index at or behind the end of the message |
| AppendEffects.LearnerHasMessage | core/Learner.go:149-166 | after a success every entry of the message is in the log at its index, itself unless the old log had one of that index and term, and what was in front is kept |
| AppendEffects.LearnerCommitsIff | core/Learner.go:168-174 | a higher commit index is followed as far as the log goes, and stored; any other changes nothing |
| AppendEffects.LearnerStateIs | core/Learner.go:253-270 | the state after applying, key by key |
| AppendEffects.LearnerStartReadsDisk | core/Learner.go:47-82 | from any gap-free store with no negative applied index: when a start panics, and what term, log, counters and state it ends with |
| RaftLearners.RaftLearner.constructor | core/Learner.go:47-84 | what a start reads back from storage and re-applies, and what was on disk before each of its writes |
| RaftLearners.RaftLearner.HandleAppendEntries | core/Learner.go:108-178 | new state, storage and reply for every contiguous message |
| RaftLearners.RaftLearner.AppendAll | core/Learner.go:140-165 | the loop over the entries, with deletion on disk |
| RaftLearners.RaftLearner.ApplyLogToStateMachine | core/Learner.go:253-270 | the loop equals the apply function; the disk goes through exactly the stated contents, metadata only at the end |
| RaftLearners.RaftLearner.FollowCommit | core/Learner.go:166-178 | the commit index a message brings, what is applied, and what was on disk before each write |
| Replay.ReplayMergesIff | core/Learner.go:253-270 | two stores are equal after one batch if and only if they agreed on every key it does not write |
| Replay.CrashReplay | core/Learner.go:253-270 | whatever part of a batch is in a store, re-applying from its beginning up to any index not below it repairs the store |
| Replay.ReplayIsRightIff | core/Learner.go:253-270 | for any commit index and any store, exactly when the replay ends in the right store |
| Replay.ReplayBelowCrashPointFails | core/Learner.go:253-270 | a log and a lower commit index for which it does not |
| Replay.LearnerRecovers | core/Learner.go:166-178 | from a store with any part of the next entries in it, the next commit that reaches far enough repairs a learner |
| Replay.CoreRecovers | core/Raft.go:554-559 | the same for a core node |
| CrashRecovery.AheadTurn | core/Raft.go:190-228 | one state write, before its metadata or after, leaves a store that is at most ahead within the commit |
| CrashRecovery.CoreCrashIsLeft | core/Raft.go:190-228 | what any crash during a commit leaves: the old metadata or that of a completed turn, and such a store |
| CrashRecovery.CoreRestartCrashIsMendable | core/Raft.go:155-165 | a crash at any write of a restart leaves no worse a disk than the one it started from |
| CrashRecovery.CoreCrashRecovers | core/Raft.go:155-165 | after a crash at any write of a commit and any number of crashes at writes of the restarts the last restart succeeds; with any new metadata stored it ends with exactly the committed entries applied, and after the next commit that reaches as far in any case |
| CrashRecovery.CoreReadyAgain | core/Raft.go:155-165 | it is then as ready for the next commit, and for the next crashes, as before |
| CrashRecovery.LeaderCrashesAsFollower | core/Raft.go:706-728 | the disks a leader goes through when it commits are among those of a follower of that commit index, so the same holds of it |
| CrashRecovery.CoreRestartIsExactIff | core/Raft.go:190-228 | the restart agrees with the commit index it read at every write but one, and there if and only if the command changes nothing |
| CrashRecovery.LogCrashKeepsState | core/Raft.go:537-552 | a crash between the log writes of a message reads back the log as it was then, perhaps with an old suffix behind it, and the state it had |
| CrashRecovery.LoadWellIndexedIff | core/RaftStorage.go:211-229 | stored entries read back as a log indexed from 1 if and only if there is no gap |
| CrashRecovery.DeleteCrashIff | core/RaftStorage.go:211-229 | a crash among the deletes of a truncation leaves no gap if and only if the entries gone so far are the last ones |
| CrashRecovery.CrashAmongDeletes | core/RaftStorage.go:211-229 | three entries, two to be deleted, and a crash behind the first delete leave a gap |
| CrashRecovery.LearnerCrashRecovers | core/Learner.go:69-79 | the same for a learner, whose log comes back unchanged |
| CrashRecovery.LearnerReadyAgain | core/Learner.go:69-79 | it is then as ready for the next commit, and for the next crashes, as before |
| CrashRecovery.LearnerRestartIsExactIff | core/Learner.go:253-270 | the restart agrees with the commit index it read if and only if the metadata was written, or the state writes before the crash together change nothing |
| ThreeNodes.AdvancePanicHappens | core/Raft.go:724 | for any three nodes a crash-free run to a leader that is about to handle a success reply and to index its log beyond the end |
| ThreeNodes.RestartAheadOfItsCommit | core/Raft.go:190-228 | for any three nodes a run to a follower that is told of a committed put, and a crash behind the state write after which its store is ahead of the commit index it reads |
| OrderedKVs.OrderedKV.Put | core/KVGroup.go:91-101 | keeps index and list in agreement; an update keeps the place, an insertion goes to the end; logged |
| OrderedKVs.OrderedKV.Delete | core/KVGroup.go:103-114 | keeps index and list in agreement; removes exactly the key, keeps the order; logged even if absent |
| OrderedKVs.OrderedKV.Reindex | core/KVGroup.go:107-109 | the renumbering loop restores exact positions |
| OrderedKVs.OrderedKV.Get | core/KVGroup.go:116-122 | answers what the map of the list holds |
| OrderedKVs.OrderedKV.ReplayLog | core/KVGroup.go:136-146 | terminates although it appends to the log it walks; the list, and the log entry by entry, afterwards |
| OrderedKVs.RelogKeeps | core/KVGroup.go:136-146 | what a replay appends is its puts and deletes in order, with index, term and key, and with the value of a put |
| OrderedKVs.PutKeepsNoDuplicates | core/KVGroup.go:91-101 | on the map of the list a put is an update, and no key appears twice |
| OrderedKVs.DeleteKeepsNoDuplicates | core/KVGroup.go:103-114 | on the map of the list a delete is a removal, and no key appears twice |
| OrderedKVs.ListRefinesMap | core/KVGroup.go:91-146 | after any operations the map of the list is the fold of the operations on a map |
| OrderedKVs.ReplayAgainSameMap | core/KVGroup.go:136-146 | a second replay leaves the map as it was |
| OrderedKVs.CallsReplay | core/KVGroup.go:91-146 | after any sequence of puts and deletes from empty, at every moment, a replay of the log rebuilds the very list, and its map is the fold of the log |
| ReplayOrder.OrderAfterLog | core/KVGroup.go:91-146 | the key order after performing a log on any list |
| ReplayOrder.ReplayAgainSameOrderIff | core/KVGroup.go:136-146 | a second replay keeps the order if and only if no key deleted somewhere stands before one that never is |
| ReplayOrder.SecondReplayReorders | core/KVGroup.go:136-146 | four operations whose second replay leaves another order |
| FrameCodec.WrapToDataFrame | core/TCPChannelWorker.go:219-251 | the loop produces exactly the frames |
| FrameCodec.FramedLength | core/TCPChannelWorker.go:219-226 | framed length is n + 4*ceil(n/size), the capacity allocated up front |
| FrameCodec.FrameOnWire | core/TCPChannelWorker.go:228-251 | byte by byte: the kind, which tells the last frame from the others, the length with the highest byte first, and the data |
| FrameCodec.ReadThread | core/TCPChannelWorker.go:325-369 | for every way the stream is split into reads, the packages are the messages of the stream |
| FrameCodec.Fill | core/KCPChannelWorker.go:243-281 | repeated partial reads fill a buffer with exactly the next bytes, or report the end |
| FrameCodec.ReadMessage | core/KCPChannelWorker.go:166-188 | the frames of a message read back as that message, whatever follows |
| FrameCodec.RoundTrip | core/TCPChannelWorker.go:325-369 | every sequence of messages comes back in order, without the empty ones |
| FrameCodec.CodecRoundTripIff | core/TCPChannelWorker.go:219-251 | for frame sizes 5 to 2^24+3 it comes back unchanged if and only if no message is empty |
| FrameCodec.LargeFrameRoundTripIff | core/TCPChannelWorker.go:238-245 | for larger frames, if and only if the length fits 24 bits |
| FrameCodec.PrefixYieldsPrefix | core/TCPChannelWorker.go:325-369 | a stream cut anywhere yields a prefix of the messages |
| EdgeList.SplitToNodeAndEdges | core/Tools.go:54-106 | the scan equals its function, and its final length check never fires |
| EdgeList.AcceptedTextIsJoin | core/Tools.go:54-106 | an accepted text is its untrimmed pieces rejoined; nodes are those pieces trimmed, none empty |
| EdgeList.TrimClean | core/Tools.go:54-106 | trimming leaves no outer blank, and leaves alone what has none |
| EdgeList.TrimDropsBlanks | core/Tools.go:54-106 | trimming takes away blanks at both ends, and only those |
| EdgeList.NamesParseBackIff | core/Tools.go:54-106 | names without a separator, with blanks around them or not, joined by any separators parse back to exactly those if none is blank, and are rejected otherwise |
| EdgeList.SeparatorsMean | core/Tools.go:54-106 | which separator gives which edge |
| Graph.TailIsShortest | core/Node.go:1090-1153 | the rest of a shortest walk is shortest from its second node |
| Routers.Pop | core/Tools.go:25-51 | takes some item of least cost |
| Routers.WalksCostAtLeast | core/Node.go:1112-1132 | no walk is cheaper than the settled distance of its end, or than the least cost queued |
| Routers.PoppedIsShortest | core/Node.go:1112-1118 | a node popped for the first time has its true distance |
| Routers.DropStaleInv | core/Node.go:1115-1117 | lazy deletion: an item of a visited node carries nothing |
| Routers.LowerKeepsInv | core/Node.go:1119-1131 | lowering a distance keeps the search invariant |
| Routers.SkipKeepsInv | core/Node.go:1119-1131 | so does passing over a link |
| Routers.UnknownDistances | core/Node.go:1099-1105 | the distances start at the maximum for exactly the ends of links |
| Routers.ShortestPaths | core/Node.go:1099-1132 | terminates with true distances, reached exactly where reachable, and predecessors that explain them |
| RoutingTables.WalkBack | core/Node.go:1134-1142 | the walk over `prev` terminates at the first hop of a shortest walk |
| RoutingTables.WalkBackEndsIff | core/Node.go:1138-1141 | that walk ever meets the source if and only if the target is reachable |
| RoutingTables.LoneSourceNeverEnds | core/Node.go:1138-1141 | for a source that no link leaves the search ends, and no walk back ever meets it |
| RoutingTables.ThirdNodeNeverEnds | core/Node.go:1138-1141 | a single link, seen from a third node, is such a case |
| RoutingTables.RouteAll | core/Node.go:1134-1153 | the loop over targets, in any order, routes each of them |
| Nodes.Node.BuildRoutingTable | core/Node.go:1090-1158 | afterwards every other node has exactly the first hop of a shortest walk, and that link's channel |
| Nodes.Node.CompareRoutingTables | core/Node.go:1163-1181 | true if and only if the tables are equal |
| Messages.MsgKeyInjective | core/Node.go:603-605 | two messages share a key if and only if origin, version and kind agree, whatever the ids contain |
| Nodes.Node.SendTo | core/Node.go:557-589 | numbers the message and sends it to its first hop, over the channel asked for or that of the route, or keeps it for a later attempt |
| Nodes.Node.OnRecv | core/Node.go:642-852 | what a message brings about: greeting, duplicate, flood, delivery, relaying with its TTL, or discarding |
| Forwarding.ReceiveDecides | core/Node.go:642-857 | for every message and table: greeted, known, given to a flood handler, delivered, passed on with which fields over which channel, kept for later, expired or dropped; and that all but greetings are remembered |
| Forwarding.TtlBoundsTrail | core/Node.go:826-831 | whatever the tables say, a message visits no more nodes than its TTL |
| Forwarding.HopLowersDistance | core/Node.go:832-848 | each hop lowers the remaining distance by the cost of its link |
| Forwarding.HopPathIsShortest | core/Node.go:832-848 | the hops of all nodes together make a shortest walk |
| Forwarding.ShortestVisitsOnce | core/Node.go:1134-1153 | with positive costs a shortest walk repeats no node |
| Forwarding.HopPathVisitsOnce | core/Node.go:832-848 | so forwarding revisits no node and takes fewer hops than there are nodes |
| Forwarding.TravelFollowsHops | core/Node.go:642-852 | the trail of a relayed message, its TTL on arrival, and where it expires |
| Forwarding.ForwardingArrivesIff | core/Node.go:557-589 | a message arrives with its content if and only if its route has at most TTL+1 nodes |
| Forwarding.DefaultTtlSuffices | common/Constants.go:16 | with at most 101 nodes the default TTL drops nothing |
| Forwarding.PairConverges | core/Node.go:1090-1158 | two linked nodes with their tables are such a converged network |
| Nodes.Node.AddLocalSub | core/Node.go:81-114 | only the first subscriber of a topic is announced, and the announcement field by field: topic, origin, TTL and the number, which is then raised |
| Nodes.Node.HandleTopicInit | core/Node.go:169-198 | the search loop records the sender once and says what goes out |
| Flooding.ArriveEffect | core/Node.go:676-687 | an arriving flood is dropped, or marked and given to its handler |
| Flooding.StartKeepsInv | core/Node.go:95-113 | a new flood has a key no earlier one has, and keeps the flooding invariant |
| Flooding.ArriveKeepsInv | core/Node.go:676-687 | an arrival keeps it |
| Flooding.HandleKeepsInv | core/Node.go:169-198 | a handler keeps it |
| FloodCoverage.HandledAtMostOnce | core/Node.go:676-687 | in every run no node handles a flood twice, so rebroadcasts are at most the number of nodes |
| FloodCoverage.FloodsCoverExactly | core/Node.go:169-198 | when no message is left every node lists, once each, exactly the nodes with a step that announces the topic and that it hears over some channel |
| FloodCoverage.AnnouncedIffStarted | core/Node.go:97-113 | the announcements on record are exactly those some step made, with its topic |
| Flooding.HearsIffConnected | core/Channel.go:152-157 | another node is heard if and only if it is connected, the node itself too where no channel drops its own messages |
| FloodCoverage.FloodsEnd | core/Node.go:169-198 | arrivals and handlings of a run are bounded by the floods started, the nodes and their degree |
| FloodCoverage.NeverStuck | core/Node.go:676-687 | while a message is left, some arrival or handling is possible |

## Assumptions

* Raft: all nodes share one duplicate-free list of peers that contains each of them; no node is its own learner;
  learners are ordinary ones and restart between handlers. `startElection` and each handler is one atomic step, and
  `ProposeCommand` and `sendAppendEntriesTo` send while the node still leads the stamped term. Storage is present and
  writes succeed. A crash of a core node restarts it from its stored term and vote (a higher term may have been stored
  before the vote in it was).
* FRP: one direction of one pair of stubs; clock readings (acknowledgement due, asked or sent lately) are parameters.
  Delivery means the call of `enqueueWrite`.
* Routing: every link is filed under its own two ends, costs are not negative (positive for forwarding), distances plus
  one link stay below the largest int64, every node of the link set is reachable. Forwarding starts when all nodes have
  built their tables from the same link set; channels lose nothing on the way.
* Flooding: channels lose nothing, the cache of seen keys is not cleaned up, peers do not change, reading and raising
  the message counter is one step.

## Left out

- Commit safety, Leader Completeness and State Machine Safety of Raft: the code does not give them. A success reply carries the follower's last index (core/Raft.go:562-563, 629-631), the follower's commit index is bounded by its log and not by the last entry checked (core/Raft.go:554-556), the median of an even group is no strict majority (core/Raft.go:721-722), and conflict truncation removes a whole term, matched entries included (core/Raft.go:523-530).
- RaftLogMatching.LogMatching: is about runs in which a crashing core node reads back its log; with another crash it is false (`UncleanCrash.UncleanCrashBreaksMatching`), and `RaftShape.RestartAfterMessageIff` says when a crash is of that kind. The same holds for InFlightMatching, LogsAreOrdered and LeaderAppendOnly.
- RaftCores.RaftCore.HandleAppendEntries: asks for entries without a gap behind `PrevLogIndex`, and so do AppendAll and the learner's two methods; every message of every run is of that kind (`RaftShape.AppendEntriesNeverPanics`).
- WindowBuffers.WindowBuffer.RemoveUpTo: numbers below -1, and acknowledgements below -1 in StreamStubs.StreamStub.OnAck, are excluded, because they leave a window with negative numbers whose slots index out of range; no run sends one (`StreamDelivery.NeverAborts`).
- Routers.ShortestPaths: negative costs and sums beyond int64 are excluded.
- RaftLearners.RaftLearner.constructor: promises nothing where re-applying runs past the stored log, because the source panics there.
- RaftCores.RaftCore.constructor: promises nothing where re-applying runs past the stored log, because the source panics there.
- RaftCores.RaftCore.StartElection: does not model what other handlers may do between the vote reset, the new term and the requests, where the source releases its lock.
- Nodes.Node.BuildRoutingTable: unreachable targets, on which the loop over `prev` never ends (`RoutingTables.WalkBackEndsIff`), negative costs and int64 overflow are excluded by its precondition; `container/heap` is a bag with extract-minimum, so the order among equal costs is open.
- Nodes.Node.AddLocalSub: callbacks are not modelled, only which clients are subscribed.
- Nodes.Node.OnRecv: messages are values, not shared pointers, so the in-process channel that hands one message object to several receivers is not captured; what the handlers other than the one for topic announcements do is not modelled.
- FloodCoverage.FloodsCoverExactly: the removal of subscribers (TopicExit) and the periodic subscription floods are not part of the step system.
- CrashRecovery.LogCrashKeepsState: is about a core node; what a learner has on disk between two log writes of one message is not in a statement. The step system of whole runs has crashes between handlers, not inside one.
- Snapshot learners (core/Learner.go:181-228, core/RaftManager.go:195-337), where log positions stop matching indices.
- Timers, retry limits, idle and lazy close of FRP streams, `resendUnackedData`, `IsFull` and `Count`: the network step that repeats any packet covers what a resend adds to safety.
- `enqueueWrite` drops chunks when its queue is full (core/FRPStreamStub.go:698-706).
- JSON and msgpack encoding, float64 values, per-group key prefixes in the database: groups and categories are separate maps, and values are opaque text.
- Raft request ids and pending-reply bookkeeping, client request forwarding, the main loop and its timers.
- Reads of zero bytes, closed connections, register messages and hash checks of the channel workers.
- `core/Elect.go`, RPC, the retry queue's loop, WebSocket and HTTP servers, TLS, sockets, signaling, start-up files, logging, wall-clock time.
