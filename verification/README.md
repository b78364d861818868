# yukino.go: models and proofs

Dafny models of the hand-written algorithms of yukino.go, with proofs of what they promise. Check everything
with `dafny verify dfyconfig.toml`.

- **Raft** (`Raft*.dfy`). `RaftCore` gives a node's reactions as functions on values. `RaftCluster` lets any
  number of nodes exchange messages that may be lost, duplicated or reordered, with timeouts at any moment;
  membership is fixed and nodes start fresh. `RaftHistory`, `RaftCompleteness`, `RaftActions`, `RaftLeading`,
  `RaftFollowing`, `RaftStep`, `RaftLogSteps` build the inductive invariant over a history of elections,
  ballots and acknowledgements; `RaftSafety` draws the theorems over whole runs. `RaftProgress` says what a
  message achieves, in terms of logs, progress and messages only, and `RaftReach` carries it to runs and gives one
  in which an entry is committed and delivered. `RaftLogImpl`, `RaftImpl` and
  `RaftNodeImpl` are the objects that are updated in place, proved to do what the functions say.
  Sections cited are those of the extended Raft paper (Ongaro and Ousterhout).
- **LSM tables** (`Lsm*.dfy`). Varints and records, Bloom filter, table writer and reader, lookup through the
  sparse index, write-ahead log and skiplist memtable.
- **Two-level LRU cache** (`Lru*.dfy`). The link array as a circular list, one level as a recency list, its
  order over runs of uses, and a bucket of two levels with expiry and a byte budget.
- **Consistent hashing with migration** (`Hash*.dfy`). Circular arithmetic, ownership, the skiplist ring, and
  nodes joining and leaving with their data keys following; `HashTasks` says what the migrator has to be told,
  `HashRemoval` gives a removal as a function and `HashWitness` the rings at which it goes wrong. The hash function is a parameter.
- **Cache peer ring** (`CacheRing.dfy`), **smooth weighted round robin** (`WeightedRoundRobin.dfy`),
  **time wheel** (`TimeWheel.dfy`), **pending RPC calls** (`RpcFutures.dfy`, a state machine over the atomic
  actions of senders, read loop, shutdown and callers).
- **HTTP routing** (`Route*.dfy`, `Router.dfy`; `RouteOrder` is the order in which patterns win) and the **query filter compiler** (`OrmFilter.dfy`).

Clocks, random heights, hash functions and network events are parameters or nondeterministic events. Integers
are unbounded; where the width matters it is written out (varints, Bloom bit positions, ring scores).

What the proofs found:

- A table finds every key exactly if its first key is nonempty and does not end in a zero byte; otherwise its
  first key is lost (`LsmTable.TableIsList`, `LsmTable.BadFirstKeyIsLost`). A memtable that is written out
  answers as before exactly if its least key is such a key (`LsmFlush.FlushMemTable`).
- When the shutdown sweep has ended, a returned future is incomplete exactly if the read loop took it before the
  sweep came to it (`RpcFutures.NoneLeftIncomplete`, `RpcFutures.ReaderMayStillHoldOne`).
- A callback is silenced for good exactly if something, even nil, is registered after it on a future that is not
  yet complete (`RpcFutures.CallbacksRun`, `RpcFutures.FirstIsSilenced`).
- The empty string is a node id that also reads as "no node". A removal then leaves keys with a wrong owner,
  exactly those whose final owner is the empty id, or fails although another node exists, exactly if a walk ends
  at the empty id (`HashRemoval.OwnedAfter`, `HashCluster.ConsistentHash.RemoveNode`, `HashWitness`).
- Removing a node forgets the keys of a node that is named like one of its virtual nodes
  (`HashRemoval.KeysAfter`, `HashWitness.NamesakeIsForgotten`).
- The migrator is told every move and otherwise nothing, but for tasks that move a key from a joining node to
  itself, which are told exactly if one of its names precedes an earlier one of its own with a recorded key
  between them (`HashCluster.ConsistentHash.AddNode`, `HashWitness.ToldToItself`), and, on a removal, tasks to the
  leaving node itself or to the empty id.
- A write-ahead log cut inside a record restores nothing at all (`LsmWal.TornWal`).

## Model

| member | source | states |
|---|---|---|
| RaftSafety.RunsAreSafe | components/raft/raft/raft.go:76-140 | in every state of every run: one leader per term, log matching, committed logs never differ where both reach, storage and tail read as one log, deliveries are the applied prefix in order |
| RaftSafety.RunsNeverPanic | components/raft/raft/log.go:259-300 | no event that can happen in a reachable state panics: not "conflict before commit index", not commitTo or appliedTo out of range |
| RaftSafety.OneLeaderPerTerm | components/raft/raft/leader.go:3-22 | leaders of one term at any two moments of a run are the same node, and its log only grows |
| RaftSafety.OneVotePerTerm | components/raft/raft/raft.go:142-153 | over a run a node's term never falls and its vote changes only when the term rises |
| RaftSafety.CommittedForever | components/raft/raft/log.go:229-235 | what a node has committed at some moment agrees with what any node has committed at any later moment |
| RaftSafety.DeliveredIsOneSequence | components/raft/raft/node.go:63-128 | entries handed to applications at any nodes and moments are prefixes of one sequence |
| RaftSafety.PersistOk | components/raft/raft/node.go:107-126 | persisting a pending Ready, stale or not, leaves storage and tail reading as the same log |
| RaftSafety.AdvanceOk | components/raft/raft/node.go:107-126 | acknowledging a Ready never panics and keeps the invariant of the node |
| RaftSafety.ReadyOk | components/raft/raft/ready.go:17-33 | taking a Ready keeps the invariant, and its messages are among those the history knows as sent |
| RaftSafety.RunLinked | components/raft/raft/node.go:50-129 | any two states of a run are linked by a growing history that forgets nothing |
| RaftCompleteness.LeaderCompleteness | components/raft/raft/raft.go:322-332 | what a quorum acknowledged in a term is in the log of every later leader (section 5.4.3) |
| RaftCompleteness.LogsMatch | components/raft/raft/log.go:282-319 | an entry's index and term determine the log up to it (section 5.3) |
| RaftCompleteness.UpToDateCarries | components/raft/raft/log.go:208-210 | a log at least as up to date as one that holds a committed prefix holds that prefix |
| RaftCompleteness.CommittedAgree | components/raft/raft/log.go:259-269 | two committed prefixes agree as far as both reach |
| RaftCompleteness.QuorumsMeet | components/raft/raft/raft.go:276-278 | any two quorums of the same servers share a server |
| RaftLeading.TermIsVacant | components/raft/raft/candidate.go:24-55 | a candidate with a quorum of votes finds its term without a leader (section 5.2) |
| RaftLeading.QuorumHolds | components/raft/raft/raft.go:322-332 | an index that the commit rule admits is acknowledged by a quorum in the leader's own term (section 5.4.2) |
| RaftLeading.LeaderAppend | components/raft/raft/raft.go:310-320 | a leader appending to its log keeps the invariant of all nodes and of the history |
| RaftLeading.BecomeLeaderOk | components/raft/raft/leader.go:3-22 | taking office adds the new reign and keeps the invariant |
| RaftLeading.AppRespOk | components/raft/raft/leader.go:80-91 | any answer to an append, accepting or rejecting, stale or not, keeps the invariant |
| RaftLeading.ProposeOk | components/raft/raft/leader.go:29-49 | proposals, with configuration entries filtered, keep the invariant |
| RaftProgress.CommitsGreatest | components/raft/raft/raft.go:322-332 | the commit index becomes the greatest of itself and every index that more than half of the peers have matched and that holds an entry of the current term; nothing else changes |
| RaftProgress.AckIsCounted | components/raft/raft/leader.go:80-91 | an acknowledgement beyond the known match becomes the sender's match, with the next index beyond it; the leader commits by the majority rule, and if the commit index rose offers every other peer what it lacks |
| RaftProgress.RefusalIsAnswered | components/raft/raft/leader.go:80-91 | a refusal of the current probe lowers the next index below it and to at most one after the hint, keeps the match, and offers the log from there on; a refusal of an older probe changes nothing |
| RaftProgress.BroadcastOffers | components/raft/raft/leader.go:148-170 | a broadcast has for every other peer the log from its next index on, with index and term of the entry before and the commit index |
| RaftProgress.FilterConfIs | components/raft/raft/leader.go:29-44 | of the proposed configuration changes only the first stays, and none if one is pending; the others become empty entries, all else stays in place |
| RaftProgress.ProposalIsSent | components/raft/raft/leader.go:29-49 | the log grows by the proposed entries, in order, with the leader's term and consecutive indexes, and every other peer is offered them |
| RaftProgress.MajorityElects | components/raft/raft/candidate.go:24-55 | the granted vote that makes a majority makes the candidate leader of its term, with an empty entry of that term appended and offered to all |
| RaftProgress.CampaignAsks | components/raft/raft/raft.go:229-261 | a node whose time is up asks every other peer for its vote in the next term, with last index and term of its log, and votes for itself |
| RaftReach.AckCommits | components/raft/raft/leader.go:80-91 | in every run, a leader that gets a new acknowledgement commits exactly by the majority rule and offers the outcome to all |
| RaftReach.EntryIsDelivered | components/raft/raft/node.go:63-128 | a run of two nodes, from the start through election and replication, at whose end an entry is delivered |
| RaftFollowing.MaybeAppendIs | components/raft/raft/log.go:282-300 | against a leader's log, an append is refused exactly if the logs do not match at its start, and otherwise leaves all of the leader's sent prefix, without touching committed entries |
| RaftFollowing.FindConflictIs | components/raft/raft/log.go:302-311 | the conflict found is the first sent index that the log does not have with that term, and lies above the commit index |
| RaftFollowing.AcceptedKeeps | components/raft/raft/follower.go:42-49 | entries acknowledged to earlier leaders survive an accepted append, unless an elected leader had lost them before |
| RaftFollowing.HandleAppOk | components/raft/raft/follower.go:42-49 | handling any append message never panics and keeps the invariant |
| RaftFollowing.HandleHeartbeatOk | components/raft/raft/follower.go:51-54 | handling any heartbeat never commits beyond what the leader's log and the follower's agree on |
| RaftProgress.AppendIsAnswered | components/raft/raft/follower.go:42-49 | an append is taken exactly if the log has the entry before it; it is then committed as far as the leader and the sent entries reach and acknowledged up to its last entry, otherwise refused with the last index and without a change |
| RaftProgress.HeartbeatIsAnswered | components/raft/raft/follower.go:51-54 | a heartbeat raises the commit index to the one it brings, as far as the log reaches, and is answered |
| RaftStep.StepOk | components/raft/raft/raft.go:76-140 | a node's step on any message known as sent never panics and extends the history, keeping the invariant |
| RaftStep.HandleVoteOk | components/raft/raft/raft.go:119-133 | granting or refusing a vote or pre-vote keeps the invariant; a ballot is cast at most once per term |
| RaftProgress.VoteIsGiven | components/raft/raft/raft.go:119-133 | a vote is given exactly if the candidate's log is not behind and the node has no other vote in that term; the answer says so, and the log stays |
| RaftProgress.PreVoteIsAnswered | components/raft/raft/raft.go:119-133 | a pre-vote is answered by the same rule, and nothing but the answer changes |
| RaftStep.CampaignOk | components/raft/raft/raft.go:229-261 | campaigning, up to immediate election with a single peer, keeps the invariant |
| RaftStep.PreCampaignOk | components/raft/raft/candidate.go:3-11 | pre-campaigning casts no ballot and keeps the invariant |
| RaftLogSteps.StepLog | components/raft/raft/raft.go:76-140 | whatever a message does, committed entries stay, the stable tail start never rises and the tail never empties by itself |
| RaftCore.QuorumIndexUnique | components/raft/raft/raft.go:322-332 | the largest index held by a quorum is well defined |
| RaftImpl.SortedGivesQuorumIndex | components/raft/raft/raft.go:322-332 | the quorum-th of the matches sorted downwards is the largest index a quorum holds |
| RaftImpl.SortDescending | components/raft/raft/raft.go:322-332 | the sorted matches are the same peers' matches in falling order |
| RaftImpl.Raft.constructor | components/raft/raft/raft.go:35-74 | a node with fresh storage starts as a follower of term 1 without a vote and with an empty log |
| RaftImpl.Raft.Step | components/raft/raft/raft.go:76-140 | the object after any receivable message is the function's state, messages included |
| RaftImpl.Raft.Campaign | components/raft/raft/raft.go:229-261 | in place, a candidate whose vote requests carry the last index and term of the one log, or a leader at once if it is alone |
| RaftImpl.Raft.Poll | components/raft/raft/raft.go:263-274 | the number of granted votes, the first answer of a peer counting |
| RaftImpl.Raft.MaybeCommit | components/raft/raft/raft.go:322-332 | the commit index becomes the greatest of itself and the indexes with an entry of the current term that a majority of peers has matched, on any node whose terms rise along its log and whose matches above its log are no majority |
| RaftImpl.Raft.AppendEntry | components/raft/raft/raft.go:310-320 | entries get term and index, the own match and the commit index follow |
| RaftImpl.Raft.BecomeLeader | components/raft/raft/leader.go:3-22 | in place, a leader with the other peers' progress reset and an empty entry of its term appended |
| RaftImpl.Raft.StepLeader | components/raft/raft/leader.go:24-120 | for every message a leader handles, the object ends as the function on values says, messages sent included |
| RaftImpl.Raft.StepCandidate | components/raft/raft/candidate.go:24-55 | the same for candidates and pre-candidates: votes counted once per peer, quorum or refusal decided |
| RaftImpl.Raft.StepFollower | components/raft/raft/follower.go:11-40 | the same for followers: appends and heartbeats handled, proposals passed on |
| RaftImpl.Raft.HandleAppendEntries | components/raft/raft/follower.go:42-49 | the log accepts or refuses as the one log says, and the reply carries the matching or the last index |
| RaftImpl.Raft.HandleHeartbeat | components/raft/raft/follower.go:51-54 | the commit index follows the leader and a reply is sent |
| RaftImpl.Raft.SendAppend | components/raft/raft/leader.go:157-170 | the message carries the log from the peer's next index on with the term before it |
| RaftImpl.Raft.HandleAppResp | components/raft/raft/progress.go:15-35 | progress rises on acceptance and falls on a current rejection only, as the function says |
| RaftLogImpl.RaftLog.constructor | components/raft/raft/log.go:80-103 | on empty storage the log is empty and nothing is committed |
| RaftLogImpl.RaftLog.ViewReadsAsOneLog | components/raft/raft/log.go:105-111 | storage below the offset followed by the tail is one log with consecutive indexes |
| RaftLogImpl.RaftLog.Slice | components/raft/raft/log.go:150-172 | a slice across storage and tail is the slice of the one log |
| RaftLogImpl.RaftLog.Term | components/raft/raft/log.go:237-257 | the term at any index of the one log, 0 outside |
| RaftLogImpl.RaftLog.LastIndex | components/raft/raft/log.go:187-198 | the length of the one log |
| RaftLogImpl.RaftLog.IsUpToDate | components/raft/raft/log.go:208-210 | the comparison of section 5.4.1 on the one log |
| RaftLogImpl.RaftLog.Append | components/raft/raft/log.go:174-185 | the one log is cut before the first new index and extended |
| RaftLogImpl.RaftLog.FindConflict | components/raft/raft/log.go:302-311 | the first index whose term the one log does not have, 0 if none |
| RaftLogImpl.RaftLog.MaybeAppend | components/raft/raft/log.go:282-300 | the one log and commit index after an append from a leader |
| RaftLogImpl.RaftLog.MaybeCommit | components/raft/raft/log.go:229-235 | commits only upward and only at an entry of the given term |
| RaftLogImpl.RaftLog.CommitTo | components/raft/raft/log.go:259-269 | the commit index never falls |
| RaftLogImpl.RaftLog.AppliedTo | components/raft/raft/log.go:212-220 | the apply index moves within what is committed |
| RaftLogImpl.RaftLog.NextEntries | components/raft/raft/log.go:113-123 | exactly the committed entries not yet applied |
| RaftLogImpl.RaftLog.StableTo | components/raft/raft/log.go:61-71 | the tail start moves past an index only if its term still agrees |
| RaftLogImpl.RaftLog.Persist | components/raft/raft/node.go:107-126 | storing a Ready's entries and marking them stable leaves the one log unchanged, even if the Ready is stale |
| RaftLogImpl.Unstable.TruncateAndAppend | components/raft/raft/log.go:23-35 | from the first new index on the tail is the new entries, what was below stays |
| RaftLogImpl.Unstable.MaybeTerm | components/raft/raft/log.go:44-59 | the tail answers for its own indexes only |
| RaftLogImpl.MemoryStorage.Entries | components/raft/raft/storage.go:40-59 | stored entries of a range, or the error for a range it does not have |
| RaftLogImpl.MemoryStorage.Term | components/raft/raft/storage.go:61-74 | the stored term at an index, an error beyond |
| RaftLogImpl.MemoryStorage.Append | components/raft/raft/storage.go:86-105 | storage keeps what lies below the first new entry and takes the rest from it |
| RaftNodeImpl.Node.NewReady | components/raft/raft/ready.go:17-33 | what is new since the last Ready: soft state, hard state, unstable and committed entries, messages |
| RaftNodeImpl.Node.Take | components/raft/raft/node.go:89-106 | the loop's memory after handing out a Ready |
| RaftNodeImpl.Node.Ready | components/raft/raft/node.go:63-106 | a Ready is offered exactly if none is pending and something is new |
| RaftNodeImpl.Node.Advance | components/raft/raft/node.go:107-126 | the acknowledged Ready is applied and its entries made stable, as the function says |
| RaftNodeImpl.MethodsMayBeCalled | components/raft/raft/node.go:50-129 | in every reachable state the preconditions of the objects' methods hold for every enabled event: timeouts, heartbeats, proposals, messages, handing out and acknowledging |
| RaftNodeImpl.Drive | components/raft/raft/node.go:50-129 | a node object driven by any event of any run ends in the state that the cluster's step gives that node, without a panic |
| LsmCodec.UvarintRoundTrip | components/lsm_tree/block.go:26-41 | every 64-bit number is read back, whatever follows |
| LsmCodec.RecordRoundTrip | components/lsm_tree/sst_reader.go:243-273 | a prefix-compressed record is read back after any key that extends what it was compressed against |
| LsmCodec.RecordsRoundTrip | components/lsm_tree/sst_reader.go:220-241 | a block of records reads back as exactly its entries |
| LsmCodec.ReadBlockData | components/lsm_tree/sst_reader.go:220-241 | the decoding loop reads what the recursive reader reads, errors included |
| LsmCodec.CountSharedPrefix | components/lsm_tree/util/string.go:3-11 | the length of the longest common prefix |
| LsmOrder.CountDownLess | components/lsm_tree/util/string.go:13-25 | counting down the last byte goes below the key exactly if that byte is not zero |
| LsmBloom.AddedExists | components/lsm_tree/filter/bloom_filter.go:32-48 | no false negatives: every added key passes |
| LsmBloom.BloomFilter.Hash | components/lsm_tree/filter/bloom_filter.go:50-63 | the bitmap has exactly the bits of the added keys and ends with their number of probes |
| LsmBloom.BloomFilter.Exist | components/lsm_tree/filter/bloom_filter.go:32-48 | true exactly if all bits of the key are set, in the given bitmap or without one in that of the keys added so far, of which none is missed |
| LsmBloom.BestK | components/lsm_tree/filter/bloom_filter.go:80-86 | between 1 and 30 probes |
| LsmTable.SearchEnds | components/lsm_tree/node.go:104-115 | on any index the search ends behind a smaller key, on one that is not smaller if there is one |
| LsmTable.GoodTableGets | components/lsm_tree/node.go:41-76 | with a good first key, a lookup of any key, present or absent, is the lookup in the written list |
| LsmTable.BadFirstKeyIsLost | components/lsm_tree/util/string.go:13-25 | with a bad first key, that very key is in the list and not found in the table |
| LsmTable.TableIsList | components/lsm_tree/node.go:41-76 | a table answers all lookups like its list if and only if its first key is good |
| LsmTable.AllBlocksReadBack | components/lsm_tree/sst_reader.go:134-150 | all blocks read at once are exactly the list |
| LsmTable.FilterLetsThrough | components/lsm_tree/sst_writer.go:123-136 | no key of a block is filtered out |
| LsmFile.PartsReadBack | components/lsm_tree/sst_reader.go:71-96 | the footer of a written file leads to exactly its filter, index and data parts |
| LsmFile.FooterRoundTrip | components/lsm_tree/sst_writer.go:57-83 | the footer's sizes and offsets are read back |
| LsmWriter.Block.Append | components/lsm_tree/block.go:26-41 | the block's bytes are the records of its entries |
| LsmWriter.Block.FlushTo | components/lsm_tree/block.go:47-61 | the bytes go out whole and the block starts anew |
| LsmWriter.SSTWriter.Append | components/lsm_tree/sst_writer.go:85-97 | what is written grows by the entry, across any block boundaries; every flushed block reached the block size with its last record and not before, and the one being filled has not |
| LsmWriter.SSTWriter.RefreshBlock | components/lsm_tree/sst_writer.go:123-136 | a pending block becomes a block of the table with its filter |
| LsmWriter.SSTWriter.InsertIndex | components/lsm_tree/sst_writer.go:110-121 | the index entry separates the block before it from what follows |
| LsmWriter.SSTWriter.Finish | components/lsm_tree/sst_writer.go:57-83 | the result is a table of exactly the appended entries, the file holds the same parts, and all blocks but the last reached the block size with their last record and not before |
| LsmReader.FileHoldsTable | components/lsm_tree/sst_reader.go:98-150 | filters, index and data read from the file are those of the writer |
| LsmReader.SSTReader.ReadFilter | components/lsm_tree/sst_reader.go:98-114 | the file's filter map or the footer's error; after a footer that could not be read nothing is promised of later calls |
| LsmReader.SSTReader.ReadIndex | components/lsm_tree/sst_reader.go:116-132 | the file's index or the footer's error, with the same proviso |
| LsmReader.SSTReader.ReadData | components/lsm_tree/sst_reader.go:134-150 | the file's entries or the footer's error, with the same proviso |
| LsmReader.DecodeFilters | components/lsm_tree/sst_reader.go:170-189 | the filter block decodes to the map, later offsets winning |
| LsmReader.DecodeIndex | components/lsm_tree/sst_reader.go:191-218 | the index block decodes to the entries in order |
| LsmReader.WriteTable | components/lsm_tree/sst_writer.go:37-136 | writing any list with any block size and reading it back: same filters, index and data; lookups equal list lookups if and only if the first key is good |
| LsmWal.WalRoundTrip | components/lsm_tree/wal/reader.go:55-88 | what was logged is read, in order |
| LsmWal.TornWal | components/lsm_tree/wal/reader.go:55-88 | a log cut between records restores those before the cut; cut inside a record it is an error |
| LsmWal.WALWriter.Write | components/lsm_tree/wal/writer.go:27-43 | the log grows by one record |
| LsmWal.ReadAllRecords | components/lsm_tree/wal/reader.go:55-88 | the reading loop agrees with the recursive reader, errors included |
| LsmMemtable.Skiplist.Put | components/lsm_tree/memtable/skiplist.go:27-58 | for any height the map is updated at the key, and size and count stay exact |
| LsmMemtable.Skiplist.Get | components/lsm_tree/memtable/skiplist.go:60-66 | the map's value, found exactly if present |
| LsmMemtable.Skiplist.GetNode | components/lsm_tree/memtable/skiplist.go:92-104 | the node of a key exactly if the map has it |
| LsmMemtable.Skiplist.All | components/lsm_tree/memtable/skiplist.go:68-82 | strictly ascending, and exactly the entries of the map |
| LsmMemtable.RestoreToMemtable | components/lsm_tree/wal/reader.go:33-53 | replays the log, last write winning; a damaged log changes nothing |
| LsmMemtable.PutLogAndRestore | components/lsm_tree/wal/reader.go:33-53 | any sequence of Puts, logged and replayed with other heights, gives the same contents |
| LsmFlush.FlushMemTable | components/lsm_tree/tree_compact.go:168-186 | a memtable written out as a table answers every lookup like the memtable's map if and only if its least key is nonempty and does not end in a zero byte |
| LsmFlush.ListAnswers | components/lsm_tree/memtable/skiplist.go:68-82 | looking a key up in the sorted list of entries is looking it up in the map |
| LsmFlush.FirstIsLeast | components/lsm_tree/memtable/skiplist.go:68-82 | the first key is good exactly if the least key of the map is |
| LruLinks.Adjust | libs/yukino_cache/lru.go:424-433 | in either direction, the link array stays a circular doubly linked list with the slot moved to the end asked for |
| LruCache.Cache.constructor | libs/yukino_cache/lru.go:306-313 | an empty level of the given capacity |
| LruCache.Cache.Put | libs/yukino_cache/lru.go:322-369 | the entry becomes most recent; a tombstone is reused if there is one, else exactly the least recently used live entry is evicted; bytes and eviction count follow |
| LruCache.Cache.Del | libs/yukino_cache/lru.go:378-394 | the key leaves the recency list, what it was bound to is returned, tombstones stay last |
| LruCache.Cache.EvictOldest | libs/yukino_cache/lru.go:396-414 | exactly the last live entry goes, past all tombstones |
| LruCache.Cache.Oldest | libs/yukino_cache/lru.go:396-402 | the walk from the tail ends at the least recently used live slot |
| LruCache.Cache.Peek | libs/yukino_cache/lru.go:371-376 | a live slot is what the list holds for the key |
| LruCache.Cache.Touch | libs/yukino_cache/lru.go:97-109 | a hit in place makes the entry most recent and changes nothing else |
| LruCache.Cache.Walk | libs/yukino_cache/lru.go:416-422 | visits the live entries in recency order |
| LruCache.ReplaceIs | libs/yukino_cache/lru.go:335-351 | in a full level the tail slot is a tombstone or the oldest entry, and reusing it is a put on the list |
| LruCache.ToBackOk | libs/yukino_cache/lru.go:378-388 | a slot that dies goes behind all others, keeping live slots before tombstones and the key index a bijection |
| LruRuns.InOrderOfUse | libs/yukino_cache/lru.go:322-369 | after any run of puts, hits, deletions and evictions, the list is in the order of last use, and each entry is the one put last for its key |
| LruRuns.LeastRecentGoes | libs/yukino_cache/lru.go:335-351 | after any run, a put keeps every key that was held, but for the least recently used one if the key is new and the level full |
| LruBucket.Bucket.Get | libs/yukino_cache/lru.go:74-112 | a hit returns the last value set, not deleted and not expired; the entry moves to the second level; no key is in both levels; entries that leave are handed out once; the budget holds |
| LruBucket.Bucket.Set | libs/yukino_cache/lru.go:118-149 | the key is bound, and the levels are cut to the budget, oldest of the first level first |
| LruBucket.Bucket.Shrink | libs/yukino_cache/lru.go:133-149 | the eviction loop ends, within the budget, and reports each evicted entry once |
| LruBucket.Bucket.EvictFromBucket | libs/yukino_cache/lru.go:144-149 | the oldest of the first level goes, of the second only if the first is empty |
| LruBucket.Bucket.Delete | libs/yukino_cache/lru.go:151-157 | the key is gone from both levels, true exactly if it was in one |
| LruBucket.Bucket.Remove | libs/yukino_cache/lru.go:435-456 | the key is gone from both levels, and the eviction callback gets the value if there was one |
| LruBucket.Bucket.Sweep | libs/yukino_cache/lru.go:458-493 | exactly the expired entries go, the others keep their order; the eviction callback gets exactly the expired entries that hold a value, each once |
| LruBucket.FitIs | libs/yukino_cache/lru.go:133-142 | what is kept is within the budget, most recent first, and one entry more would not fit |
| LruBucket.WithinBudget | libs/yukino_cache/lru.go:315-320 | with a limit, the lengths of all keys and values held add up to no more than it, and the byte counts of the levels are those lengths |
| LruList.BytesAreLengths | libs/yukino_cache/lru.go:315-320 | the bytes of a list are the lengths of its keys and of the values it has |
| HashNames.NodeIdOfRaw | components/consistent_hash/consistent_hash.go:216-226 | a virtual node name gives its node id back, underscores in the id or not |
| HashNames.RawInjective | components/consistent_hash/consistent_hash.go:216-218 | different nodes or replica numbers have different names |
| HashCircle.TakenOverIsArc | components/consistent_hash/migration.go:46-89 | the wraparound arithmetic of migrateIn takes exactly the keys whose next score is the new one |
| HashCircle.GivenUpIsArc | components/consistent_hash/migration.go:162-181 | the wraparound arithmetic of migrateOut gives up exactly the keys whose next score is the removed one |
| HashCircle.FloorBefore | components/consistent_hash/migration.go:26-34 | the floor of the point before a score is the score before it, or itself if it is alone |
| HashCircle.ArcGoesOn | components/consistent_hash/migration.go:36-44 | without a score its keys go to the score after it |
| HashOwners.NewScore | components/consistent_hash/migration.go:11-100 | migration into a new score keeps every recorded key with its owner and loses none |
| HashOwners.JoinScore | components/consistent_hash/migration.go:22-24 | a further name at a taken score changes no owner |
| HashLeaving.Handover | components/consistent_hash/migration.go:102-197 | handing the arc of a leaving first name to whoever takes over, or keeping it if that id is empty, leaves every key with its final owner or with the leaving node while that one may have it |
| HashLeaving.SecondIsHeir | components/consistent_hash/migration.go:183-186 | with several names at a score the second one's node is an heir, be it the leaving node itself |
| HashLeaving.WalkFinds | components/consistent_hash/migration.go:199-235 | the first score clockwise that is not the leaving node's alone gives an heir |
| HashLeaving.NotFirst | components/consistent_hash/migration.go:134-136 | a name that is not first at its score goes unnoticed |
| HashLeaving.LeavingEnds | components/consistent_hash/consistent_hash.go:87-147 | when the last name is gone, the owners are right if and only if no key with the node has the empty id as final owner |
| HashLeaving.DoomedStay | components/consistent_hash/migration.go:107-120 | keys whose final owner is the empty id never leave the leaving node |
| HashLeaving.WalkGoesOn | components/consistent_hash/migration.go:199-235 | a step of the walk ends at the right score or passes one more, never coming back to where it began |
| HashRemoval.AfterOk | components/consistent_hash/consistent_hash.go:121-142 | after any number of names: ring and final owners are right, keys are where they may be, and the keys bound for the empty id are the same as at the start |
| HashRemoval.OwnedAfter | components/consistent_hash/consistent_hash.go:87-147 | a removal that goes through leaves the right owners if and only if no key of the node has the empty id as final owner |
| HashRemoval.KeysAfter | components/consistent_hash/local/hash_ring.go:217-217 | a removal forgets a key if and only if some node that has keys is named like a name at the moment that name goes |
| HashRemoval.LastFails | components/consistent_hash/migration.go:153-160 | a single node that has keys cannot be removed |
| HashRemoval.NamedNeverFails | components/consistent_hash/migration.go:188-194 | without an empty node id no name fails as long as there is another node |
| HashRemoval.NamedNotDoomed | components/consistent_hash/migration.go:111-113 | without an empty node id no key has the empty id as final owner |
| HashRemoval.NoClashNoDrop | components/consistent_hash/local/hash_ring.go:217-217 | if no node is named like a name of another, nothing is forgotten |
| HashWitness.EmptyIdLosesOwnership | components/consistent_hash/migration.go:183-186 | two nodes at one score, the second with the empty id: the removal of the first succeeds and leaves a key with a wrong owner |
| HashWitness.EmptyIdStopsRemoval | components/consistent_hash/migration.go:188-194 | two nodes at different scores, one with the empty id: the removal of the other fails although a node is left |
| HashWitness.NamesakeIsForgotten | components/consistent_hash/local/hash_ring.go:217-217 | a node named like the virtual node of another: removing that other succeeds and forgets the first one's key |
| HashWitness.ToldToItself | components/consistent_hash/consistent_hash.go:60-80 | a joining node whose second name precedes its first: the migrator is told to move a key from the node to itself |
| HashTasks.TellIn | components/consistent_hash/consistent_hash.go:69-79 | a task that is told keeps the tasks complete and true to what has moved so far |
| HashTasks.TellOut | components/consistent_hash/consistent_hash.go:121-142 | the same for a removal: each key that left is told once, and to where it went |
| HashTasks.HandedTakesOut | components/consistent_hash/migration.go:107-120 | what a name hands over is what its task says |
| HashTasks.ToldToNobody | components/consistent_hash/migration.go:111-113 | keys told to go to the empty id are those that should belong to it |
| HashSkiplist.SkiplistHashRing.Add | components/consistent_hash/local/hash_ring.go:133-168 | for any height the ring gains the name at its score, once |
| HashSkiplist.SkiplistHashRing.Rem | components/consistent_hash/local/hash_ring.go:196-244 | the name goes, the score if it was the last, and the record under that name; fails exactly if it is not there |
| HashSkiplist.SkiplistHashRing.Ceiling | components/consistent_hash/local/hash_ring.go:170-181 | the first score clockwise, -1 exactly on the empty ring |
| HashSkiplist.SkiplistHashRing.Floor | components/consistent_hash/local/hash_ring.go:183-194 | the first score counter-clockwise, -1 exactly on the empty ring |
| HashSkiplist.SkiplistHashRing.Last | components/consistent_hash/local/hash_ring.go:392-405 | the greatest score |
| HashSkiplist.SkiplistHashRing.Get | components/consistent_hash/local/hash_ring.go:407-420 | the node of a score exactly if the ring has it |
| HashSkiplist.SkiplistHashRing.Node | components/consistent_hash/local/hash_ring.go:273-284 | the names at a score, in order of arrival |
| HashSkiplist.SkiplistHashRing.Trim | components/consistent_hash/local/hash_ring.go:235-241 | the root is cut to the height of the tallest node |
| HashSkiplist.SkiplistHashRing.AddNodeToDataKeys | components/consistent_hash/local/hash_ring.go:301-314 | afterwards exactly what was recorded and the keys with that node are recorded |
| HashSkiplist.SkiplistHashRing.DeleteNodeToDataKeys | components/consistent_hash/local/hash_ring.go:316-331 | afterwards exactly what was recorded but the keys with that node is recorded, and an empty record goes |
| HashCluster.ConsistentHash.GetNode | components/consistent_hash/consistent_hash.go:166-202 | the owner of a key, who is recorded with it; nothing else changes |
| HashCluster.ConsistentHash.AddNode | components/consistent_hash/consistent_hash.go:34-85 | a new node with any id joins: its names are appended at their scores, every recorded key is with its owner, none is lost, keys move only to the new node; the tasks tell exactly the keys that changed place, each once and from where it was, and a task from the new node to itself is told exactly if one of its names takes a key of an earlier one; a known id is refused |
| HashCluster.ConsistentHash.RemoveNode | components/consistent_hash/consistent_hash.go:87-147 | for any ids: fails exactly at the first name whose walk ends at the empty id while the node has keys; then ring and records are those after the names before it; otherwise the owners are right exactly if no key has the empty id as final owner, keys are forgotten exactly if a node that has keys is named like a name that goes, and the tasks tell each key that moved once and to where it went; a task that moves nothing is told exactly if a name has keys and its taker is the node itself or the empty id; alone it succeeds exactly if nothing is recorded, and without an empty id exactly if there is another node or nothing is recorded |
| HashCluster.ConsistentHash.MigrateIn | components/consistent_hash/migration.go:11-100 | the migrator's task is exactly the keys that changed place |
| HashCluster.ConsistentHash.MigrateOut | components/consistent_hash/migration.go:102-197 | fails exactly if the node has keys, the name is alone at its score and the walk ends at the empty id; otherwise the arc's keys go to the second name's node or the walk's, and nowhere if that id is empty; the task names the keys and who takes over |
| HashCluster.ConsistentHash.NextNode | components/consistent_hash/migration.go:199-235 | the recursion ends, at the first score clockwise that is not the node's alone, with its first other name or its second name |
| CacheRing.AddMovesToNode | libs/yukino_cache/consistent_hash.go:102-121 | adding a node changes an owner only to that node |
| CacheRing.RemoveMovesOwnOnly | libs/yukino_cache/consistent_hash.go:123-146 | removing a node changes only the owners of what it owned |
| CacheRing.NewNodeRestores | libs/yukino_cache/consistent_hash.go:102-146 | adding and removing a new node restores the ring, collisions included |
| CacheRing.PlaceIs | libs/yukino_cache/consistent_hash.go:102-121 | taken hashes keep their owner, and the node gets exactly those of its hashes that were free |
| CacheRing.ConsistentHashMap.Get | libs/yukino_cache/consistent_hash.go:74-100 | binary search gives the circular successor's node, and exactly that node's request count rises |
| CacheRing.ConsistentHashMap.Search | libs/yukino_cache/consistent_hash.go:87-92 | the first hash not below the key's |
| CacheRing.ConsistentHashMap.AddNodeLocked | libs/yukino_cache/consistent_hash.go:102-121 | the node's hashes are placed where free, hash list, owner map and node lists stay consistent |
| CacheRing.ConsistentHashMap.Add | libs/yukino_cache/consistent_hash.go:45-61 | hashes that were taken keep their owner, and each free hash of a new nonempty name goes to the first name in the list that has it; the list is sorted and counts of known nodes stay |
| CacheRing.ConsistentHashMap.Remove | libs/yukino_cache/consistent_hash.go:63-72 | exactly the node's hashes go; an unknown or empty name is refused |
| WeightedRoundRobin.NextBalanced | libs/yukino_rpc/internal/load_balance/weighted_rr.go:50-60 | a selection keeps the weights summing to zero and above minus the total, and never picks a weightless instance |
| WeightedRoundRobin.RunIsFair | libs/yukino_rpc/internal/load_balance/weighted_rr.go:35-61 | n times the total weight of selections pick every instance n times its weight and leave all current weights zero |
| WeightedRoundRobin.WeightedRR.constructor | libs/yukino_rpc/internal/load_balance/weighted_rr.go:16-33 | negative weights count as zero and the total is their sum |
| WeightedRoundRobin.WeightedRR.Select | libs/yukino_rpc/internal/load_balance/weighted_rr.go:35-61 | a selection of the first greatest, or nothing for an empty list, another length or no weight |
| TimeWheel.FiresExactlyOn | components/time_wheel/time_wheel.go:133-151 | a task fires on a tick exactly if the ticks since it was added, times the interval, are at most its delay and one tick more would exceed it (at the first tick for a negative delay), whatever happens to other keys |
| TimeWheel.RemovedNeverFires | components/time_wheel/time_wheel.go:153-161 | a removed task does not fire until it is added again |
| TimeWheel.CountsDown | components/time_wheel/time_wheel.go:102-131 | a task that is not touched counts down by the ticks alone, and is gone once they are used up |
| TimeWheel.TickRefines | components/time_wheel/time_wheel.go:102-131 | a tick of the wheel is a tick of every countdown |
| TimeWheel.PlaceIsRight | components/time_wheel/time_wheel.go:133-141 | position and rounds of a delay make up the ticks it stands for |
| TimeWheel.Wheels.Tick | components/time_wheel/time_wheel.go:102-106 | countdowns fall by one, and exactly those at one fire, each once |
| TimeWheel.Wheels.Execute | components/time_wheel/time_wheel.go:108-131 | what still waits a round stays, the rest fires and leaves slot and index |
| TimeWheel.Wheels.AddTask | components/time_wheel/time_wheel.go:143-151 | the key waits for the number of ticks whose time is the first beyond the delay, with its task, replacing what it had; all others are as before |
| TimeWheel.Wheels.RemoveTask | components/time_wheel/time_wheel.go:153-161 | the key is gone from slot and index |
| RpcFutures.NoneLeftIncomplete | libs/yukino_rpc/internal/transport/tcp_client.go:153-172 | in every interleaving, once the sweep has ended a returned future is incomplete if and only if the read loop took it before the sweep came to it, and then the read loop's next action completes it with its reply |
| RpcFutures.ReaderMayStillHoldOne | libs/yukino_rpc/internal/transport/tcp_client.go:105-114 | a run in which the sweep ends while the read loop still holds a returned, incomplete future |
| RpcFutures.AtMostOnce | libs/yukino_rpc/internal/transport/future.go:50-67 | in every interleaving a future completes at most once and no callback runs twice |
| RpcFutures.CallbacksRun | libs/yukino_rpc/internal/transport/future.go:50-88 | in every interleaving a callback has run or waits to run late if and only if its future is complete, nothing, nil or not, was registered after it before that, and the completer is not just about to run it; once the channel is closed the last proviso is gone |
| RpcFutures.DroppedIsSilenced | libs/yukino_rpc/internal/transport/future.go:76-82 | the callbacks that are replaced are those followed by a registration on the same future before its completion |
| RpcFutures.FirstIsSilenced | libs/yukino_rpc/internal/transport/future.go:76-88 | a run for each case, callback and nil, in which the second registration silences the first for good |
| RpcFutures.OutcomeIsFinal | libs/yukino_rpc/internal/transport/future.go:50-67 | what a future was completed with never changes |
| RpcFutures.OutcomeIsFrom | libs/yukino_rpc/internal/transport/tcp_client.go:105-172 | in every interleaving the outcome of a future is one that was received under its own sequence number, or the error of the first shutdown |
| RpcFutures.RunSound | libs/yukino_rpc/internal/transport/tcp_client.go:51-79 | in every interleaving every send is accounted for: in the map, in hand, completed or refused |
| RouteParts.ParsePattern | libs/yukino_http/router.go:20-32 | the nonempty segments up to the first wildcard |
| RouteParts.ParseIsProper | libs/yukino_http/router.go:20-32 | segments are nonempty, without slashes, a wildcard only last |
| RouteParts.RoundTrip | libs/yukino_http/router.go:34-36 | a canonical pattern parses back to its segments |
| RouteTrie.InsertHolds | libs/yukino_http/trie.go:19-32 | inserting adds one pattern at its path and changes nothing else |
| RouteTrie.SearchSound | libs/yukino_http/trie.go:34-53 | what is found is held at a path that matches |
| RouteTrie.SearchComplete | libs/yukino_http/trie.go:34-53 | if a held path matches, something is found |
| RouteOrder.InsertOrdered | libs/yukino_http/trie.go:19-32 | children stand in the order in which patterns with that beginning were first registered |
| RouteOrder.SearchBest | libs/yukino_http/trie.go:34-53 | what is found goes before every other pattern that matches: at the first segment where they differ it has the segment itself, or else its beginning was registered earlier |
| RouteOrder.BetterIsStrict | libs/yukino_http/trie.go:34-53 | of two patterns at most one goes before the other, so the best one is determined |
| RouteNodes.TrieNode.Insert | libs/yukino_http/trie.go:19-32 | inserting in place is inserting in the tree of values |
| RouteNodes.TrieNode.Search | libs/yukino_http/trie.go:34-53 | searching the objects is searching the tree of values |
| RouteNodes.TrieNode.Candidates | libs/yukino_http/trie.go:73-86 | the child with the very part first, then the wild ones in order; RouteOrder.SearchBest says what this decides |
| RouteNodes.TrieNode.Child | libs/yukino_http/trie.go:64-71 | the first child with the part |
| Router.SearchFinds | libs/yukino_http/router.go:45-57 | a search succeeds exactly if a registered pattern matches, and finds one that does |
| Router.FoundIsBest | libs/yukino_http/router.go:45-57 | the pattern found goes before every other registered one that matches |
| Router.VeryPathIsFound | libs/yukino_http/trie.go:73-86 | a registered pattern that is the path itself is found, whatever else matches |
| Router.Params | libs/yukino_http/router.go:58-67 | parameters are the matching segments, the last of a name counting |
| Router.KeysDiffer | libs/yukino_http/router.go:37-42 | handler keys of different routes differ for method names without a slash |
| Router.SlashesCollide | libs/yukino_http/router.go:37-37 | with a slash in a method string the keys of different routes can be the same |
| Router.RouterTable.AddRoute | libs/yukino_http/router.go:34-43 | for any method string the pattern is registered with the handler, after those seen before, replacing only its own earlier one; handlers are found under their keys as long as no method has a slash |
| Router.RouterTable.GetRoute | libs/yukino_http/router.go:45-69 | found exactly if a registered pattern matches; it is the one that goes before all others that match, and the path's own pattern if that is registered; its parameters, and its last handler as long as no method has a slash |
| OrmFilter.BuildConditionFilter | libs/yukino_orm/filter.go:160-226 | the document accepts exactly what satisfies all conditions, however many are on one field |
| OrmFilter.BuildFilter | libs/yukino_orm/filter.go:136-158 | the filter accepts what satisfies all of some nonempty group, everything if there is none |
| OrmFilter.Builder.SetEquality | libs/yukino_orm/filter.go:165-179 | the document now means its old meaning and the equality |
| OrmFilter.Builder.SetOp | libs/yukino_orm/filter.go:181-196 | the document now means its old meaning and the operator |
| OrmFilter.Builder.Put | libs/yukino_orm/filter.go:198-220 | the document now means its old meaning and the condition |
| OrmFilter.LikeIsCharWise | libs/yukino_orm/filter.go:129-134 | quoting and the two replacements do not disturb each other: the pattern is translated character by character |

## Left out

- RaftImpl.Raft.constructor: storage is empty at the start; restart from storage, membership changes, the lead hint and any liveness claim are left out.
- RaftLogImpl.RaftLog.constructor: storage is empty at the start, for the same reason.
- RaftImpl.Raft.StepLeader: ReadIndex and the read acknowledgements of heartbeat responses are left out.
- RaftImpl.Raft.StepFollower: ReadIndex and ReadIndexResp messages are left out.
- Raft terms and indexes are unbounded; 64-bit wrap-around is not modelled. Progress records are map values, not shared objects.
- LSM level tree: choice of compaction, level insertion and lookup across levels.
- LsmReader.WriteTable: read-back is stated for files below 2^56 bytes, beyond which the 32-byte footer overflows.
- LsmReader.SSTReader.ReadFilter: what a footer that could not be read leaves in the reader is taken as arbitrary, so later calls on such a file promise nothing; the same holds of ReadIndex and ReadData.
- LsmFlush.FlushMemTable: inserting the table into level 0 is left out.
- LsmBloom.BloomFilter.Hash: filters of 2^32 bits or more are not modelled, nor is the division by zero without keys.
- LruCache.Cache.constructor: capacity 0, and 65535 at which the 16-bit slot count wraps, are not modelled.
- LruBucket.Bucket.Get: one bucket under its lock; choosing the bucket by hash, Clear, Len and Walk of the whole store would only add easy members. Expiry times are unbounded, so the sum in SetWithExpiration is required not to overflow.
- LruCache.Cache.Put: the eviction callback is a result, so a callback that calls back into the cache is not modelled.
- HashCluster.ConsistentHash.RemoveNode: starts from a ring whose owners are right, so what follows a removal that failed or went wrong is not modelled; the migrator is present and ring calls succeed. The Redis ring is not part of this model.
- HashCluster.ConsistentHash.AddNode: replica numbers are unbounded; the batch that runs the migrator concurrently is left out.
- CacheRing.ConsistentHashMap.Get: counts are updated atomically with the lookup; the statistics drawn from them are left out.
- TimeWheel.Wheels.Tick: list elements are values found by key rather than shared list nodes; a task is a number, and running it is left out.
- RpcFutures.NoneLeftIncomplete: streams, decoding of results and waiting are left out.
- Router.RouterTable.AddRoute: the exported registration functions (libs/yukino_http/group.go:53-86) pass constant method names only, so none of them can make keys coincide. Middleware composition is left out.
- OrmFilter.BuildFilter: parsing of Where arguments, raw operators that need each other, and document or regular-expression values used as equality operands are left out; field names do not start with `$`, so the "$and" list is a separate part of the document.
- TCC, distributed locks, cache consistency, drivers, loggers, applications and generated code.
