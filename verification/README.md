# VortexKV: models and proofs

VortexKV is an in-memory key-value server that speaks the Redis protocol. This project models the parts of it that
carry state or arithmetic and proves what they are for: sorted sets, vector search, the input pipeline of the
reactor, streams and consumer groups, optimistic transactions, the cluster's slots, votes and rebalancing, the
snapshot and append-only files, the wire codecs, and the sharded keyspace.

`dafny verify dfyconfig.toml` checks everything.

## How the model is laid out

Code that updates objects in place is a class with the same fields; loops are loops. Where many objects hold one
value between them, the class carries a ghost mirror of that value (`nodes`/`towers` of a skip list, `flat` of the
keyspace, `own` of the slot table, `table` of the sessions), an invariant ties the objects to the mirror, and the
hard arguments are lemmas about plain values.

| files | what they model |
|---|---|
| `SkipList.dfy`, `Ordering.dfy` | sorted sets: linked towers with spans against one sorted list |
| `Hnsw.dfy` | the vector index: layer search, descent, linking, pruning, deletion |
| `CommandParser.dfy`, `RingBuffer.dfy`, `Reactor.dfy` | the reactor's incremental parser, ring buffer and read handler, and independence of how a stream is cut into reads |
| `StreamIds.dfy`, `OddBounds.dfy`, `StreamEntries.dfy`, `ConsumerGroups.dfy`, `Streams.dfy` | stream IDs and other texts as bounds, entries, groups, and delivery over whole histories |
| `Sessions.dfy`, `Transactions.dfy`, `Dialogue.dfy`, `Isolation.dfy` | WATCH, MULTI, EXEC and DISCARD over all interleavings of clients, what each command does to whom, and what a transaction can rely on |
| `ShortCut.dfy` | the reactor's short cut for simple writes against the engine's handlers |
| `SlotTable.dfy`, `Cluster.dfy`, `Votes.dfy` | slot ownership held twice, packet processing, and votes over all runs of a cluster |
| `Rebalance.dfy` | the rebalancing plan and the initial layout |
| `Bits.dfy`, `Crc64.dfy`, `Snapshot.dfy`, `SnapshotFile.dfy` | the checksum, the value codecs, and saving and loading whole files |
| `Decimal.dfy`, `Resp.dfy`, `AppendLog.dfy`, `LogCuts.dfy`, `CommandRoundTrip.dfy` | the protocol printers and readers, and the append-only file, whole or cut off |
| `Keyspace.dfy` | 256 shards against one map with expiry |
| `SlotRanges.dfy`, `BusCodec.dfy` | slot ranges in text, and bus packets in bytes |
| `Bytes.dfy`, `Sets.dfy` | shared vocabulary |

A class method is proved against a function of the old state; what the system promises is then proved about that
function or about runs of it. For example, `Connection.HandleRead` is proved to be the step function of a connection,
and `RunBounds`, `ChunkingIndependence` and `CutIsIrrelevantIff` are about all runs of that step.

Every locked method of the original is one atomic step. Clocks, random tower heights and levels, map iteration order
and the results of system calls are parameters or free choices. Scores and distances are real numbers.

## Where the code does less than expected

Each of these is kept as the code has it. The exact condition under which the expected property holds is proved, and
the lemma or method named first gives an input or a run where it does not.

* The rank of an empty member is not found unless the header's topmost link leads at or before it, because the search
  compares the header's own empty member (`RankOfEmptyMemberFails`, `GetRank`).
* A vector without a name that becomes the entry point is taken for a missing one: searches find nothing, and the next
  vector takes its place without a link. This happens exactly when such a vector is the first, or above all others
  (`UnnamedEntry`, `HnswIndex.Insert`, `HnswIndex.Delete`).
* QUIT closes the connection, but commands behind it in the same read are still executed. What a client's stream
  executes is independent of how it is cut into reads exactly when nothing follows the first QUIT (`WholeRun` and
  `BytewiseRun`, `CutIsIrrelevantIff`).
* When the peer closes, the commands completed by a last stretch of reads that filled the buffer behind an incomplete
  command are lost. Nothing is lost exactly when these reads complete no command (`PingIsLost`, `CloseLoses`).
* A bulk length just below 2^63 makes the reactor's parser slice out of bounds (`HugeLengthPanics`, `PanicIff`).
* An automatic sequence number that overflows can put an entry out of order, and an explicit ID on an emptied stream
  can lie below the last one (`SequenceOverflows`, `AddKeepsOrdered`; `StreamRestarts`, `LastIdRises`).
* Moving a group's cursor back can let an entry become pending for two consumers, one of whom then keeps it for ever.
  A read keeps the lists in agreement exactly when nothing it delivers is pending for somebody else (`PendingTwice`,
  `AckedOnce`, `ConsumerGroup.ReadNew`), and every possible read does exactly when nothing undelivered is pending
  (`NextReadAgreesIff`).
* A cursor or range bound that is not an ID is compared as text, and some such texts do not separate lower from higher
  IDs (`OddBoundIsNoBound`, `OddSeparatesIff`). With these a range can lose entries (`RangeIsSafeIff`,
  `RevRangeIsSafeIff`).
* FLUSHDB, FLUSHALL, XGROUP, XREADGROUP and a ZADD that fails half-way do not report the keys they change to WATCH, so
  a transaction can run though a watched key has changed (`FlushIsMissed`, `GroupChangeIsMissed`, `GroupReadIsMissed`,
  `PartialAddIsMissed`, `UndisturbedIff`).
* The reactor's short cut for SET over a value of another type counts the key twice (`FastIsFull`, `CounterDrifts`).
* A candidate counts its own vote towards a majority of masters it is not one of, so two candidates can win the same
  epoch (`TwoWinners`, `WinnerAloneIff`).
* A snapshot whose stored checksum is zero is loaded without comparison (`UncheckedVersions`, `DamageDetected`).
* A boolean is printed in three different ways by the three protocol printers (`TrueInThreeWays`, `PrintersAgree`).
* A log that ends inside a bulk string's payload makes `Replay` return an error, although every complete command has
  been handed on by then (`CutInsidePing`, `CutIsCleanIff`, `CutReplays`).
* DEL counts keys that have expired but are still stored (`ExpiredIsCounted`, `DeleteCountsSeenIff`).
* Bus packets keep only what fits their fields, and count gossip entries modulo 65536 (`PacketReadsBack`,
  `PacketRoundTripIff`).

## Model

| member | source | states |
|---|---|---|
| `SkipLists.SkipList.constructor` | internal/datastruct/skiplist.go:41-51 | a new sorted set is well formed and empty |
| `SkipLists.SkipList.FindPredecessors` | internal/datastruct/skiplist.go:79-96 | the descent ends, on every level, at the last node before the pair, and the ranks it adds up are those nodes' positions |
| `SkipLists.SkipList.RaiseLevel` | internal/datastruct/skiplist.go:98-106 | opening unused header levels keeps every span equal to the distance it stands for |
| `SkipLists.SkipList.Splice` | internal/datastruct/skiplist.go:108-124 | linking a tower in splits or stretches every link that passes the new position, so all spans stay exact |
| `SkipLists.SkipList.Insert` | internal/datastruct/skiplist.go:70-141 | for any tower height: the dictionary gets the pair, and order, sublists, spans, backward pointers, tail, length and level all hold again, also when the member was there with another score |
| `SkipLists.SkipList.InsertNew` | internal/datastruct/skiplist.go:79-141 | where the new node stands, and its height |
| `SkipLists.SkipList.Unlink` | internal/datastruct/skiplist.go:166-175 | taking a node out joins its links and shrinks those that pass over it, so all spans stay exact |
| `SkipLists.SkipList.LowerLevel` | internal/datastruct/skiplist.go:181-183 | the level in use is again the height of the tallest tower |
| `SkipLists.SkipList.Delete` | internal/datastruct/skiplist.go:149-190 | false exactly for an absent member; otherwise the pair is gone and the whole invariant holds again |
| `SkipLists.SkipList.DeletePresent` | internal/datastruct/skiplist.go:155-190 | removal of a present member always finds its node |
| `SkipLists.SkipList.ElementsAreDictInOrder` | internal/datastruct/skiplist.go:70-190 | in every valid state the chain lists exactly the dictionary's pairs, scores never fall along it, and members of equal score are in strict string order |
| `SkipLists.SortedArrangementIsUnique` | internal/datastruct/skiplist.go:70-190 | a set of pairs has only one strictly sorted arrangement, so the chain is determined by the dictionary |
| `SkipLists.SkipList.LevelIsSublist` | internal/datastruct/skiplist.go:70-190 | the links of each level visit exactly the towers that reach it, in bottom-level order |
| `SkipLists.SkipList.GetRank` | internal/datastruct/skiplist.go:200-223 | the 0-based position of the member, -1 if absent; for the empty member exactly when the header's top link leads at or before it, since the search takes the header for a match |
| `SkipLists.RankCountsSmaller` | internal/datastruct/skiplist.go:200-223 | a position in the sorted list is the number of smaller elements |
| `SkipLists.RankOfEmptyMemberFails` | internal/datastruct/skiplist.go:218-220 | a two-element sorted set in which the empty member has no rank |
| `SkipLists.SkipList.GetElementByRank` | internal/datastruct/skiplist.go:225-238 | the node at any 1-based rank, the header for 0, nil beyond the end |
| `SkipLists.SkipList.RankRoundTrip` | internal/datastruct/skiplist.go:200-238 | the element at a non-empty member's own rank is that member |
| `SkipLists.SkipList.Range` | internal/datastruct/skiplist.go:240-289 | forward and reverse ranges are rank intervals of the sorted list and of its reversal, with negative indexes counted from the end |
| `SkipLists.RankIntervalIsSlice` | internal/datastruct/skiplist.go:248-263 | such an interval is the slice between the normalised bounds, or empty |
| `SkipLists.BetweenIsSlice` | internal/datastruct/skiplist.go:248-263 | the elements at positions between two bounds are a slice |
| `SkipLists.BeforeIsStrictTotalOrder` | internal/datastruct/skiplist.go:89-91 | score and then member is a strict total order |
| `Ordering.LessIsFirstDifference` | internal/datastruct/skiplist.go:84-92 | strings are ordered by their first difference |
| `CommandParser.ParseCommandInto` | internal/reactor/parser.go:19-31 | the dispatching parser computes `Parse` |
| `CommandParser.ParseRespArrayInto` | internal/reactor/parser.go:33-122 | the loops over header and bulk strings compute the position-based grammar, including wrapped counts, missing line ends and the panic on huge lengths |
| `CommandParser.ParseBulk` | internal/reactor/parser.go:61-119 | one bulk string: argument, need for more bytes, protocol error, or panic |
| `CommandParser.ParseDigits` | internal/reactor/parser.go:42-50 | the digit loop in wrapping 64-bit arithmetic |
| `CommandParser.ParseInlineCommandInto` | internal/reactor/parser.go:124-152 | an inline command is the fields of its line |
| `CommandParser.FieldsAre` | internal/reactor/parser.go:124-152 | white space separates, and everything up to the next white space is one field |
| `CommandParser.SpaceIs` | internal/reactor/parser.go:124-152 | which bytes are white space |
| `CommandParser.ParseExtends` | internal/reactor/parser.go:19-152 | a command, an error and a panic are final: no further bytes change them |
| `CommandParser.ParseLocal` | internal/reactor/parser.go:19-152 | a command is decided by the bytes it consumes alone |
| `CommandParser.PanicIff` | internal/reactor/parser.go:61-119 | the parser panics if and only if, behind arguments it can read, one of those announced has a complete header whose wrapped length is above 2^63 - 3 |
| `RingBuffers.RingBuffer.constructor` | internal/reactor/ring_buffer.go:23-31 | an empty buffer of the requested size, or of 64 KiB |
| `RingBuffers.RingBuffer.Len` | internal/reactor/ring_buffer.go:34-39 | the number of unread bytes |
| `RingBuffers.RingBuffer.Free` | internal/reactor/ring_buffer.go:47-49 | the room left, one slot always staying unused |
| `RingBuffers.RingBuffer.IsEmpty` | internal/reactor/ring_buffer.go:52-54 | equal cursors mean an empty queue and nothing else |
| `RingBuffers.RingBuffer.Reset` | internal/reactor/ring_buffer.go:62-65 | empties the queue |
| `RingBuffers.RingBuffer.Write` | internal/reactor/ring_buffer.go:68-98 | always appends all of p to the queue, through wrap-around and growth |
| `RingBuffers.RingBuffer.WriteFitting` | internal/reactor/ring_buffer.go:78-97 | the in-place write, in one piece or two |
| `RingBuffers.RingBuffer.Read` | internal/reactor/ring_buffer.go:101-132 | moves the oldest bytes, as many as fit, out of the queue; end of file exactly when it is empty |
| `RingBuffers.RingBuffer.Peek` | internal/reactor/ring_buffer.go:136-144 | a non-empty prefix of the queue unless it is empty, up to the physical end |
| `RingBuffers.RingBuffer.All` | internal/reactor/ring_buffer.go:147-160 | the whole queue in one slice |
| `RingBuffers.RingBuffer.AdvanceRead` | internal/reactor/ring_buffer.go:163-172 | drops bytes from the front, all of them if asked for more |
| `RingBuffers.RingBuffer.AdvanceWrite` | internal/reactor/ring_buffer.go:175-180 | bytes placed behind the write cursor become the end of the queue |
| `RingBuffers.RingBuffer.WriteSlice` | internal/reactor/ring_buffer.go:184-192 | the contiguous free stretch |
| `RingBuffers.RingBuffer.Grow` | internal/reactor/ring_buffer.go:194-214 | more room, at least doubled, and the same queue |
| `Reactor.ParseIsIncremental` | internal/reactor/reactor_linux.go:390-503 | the reactor's parser makes progress, looks only at what it consumes, and never revises a verdict |
| `Reactor.DrainResumes` | internal/reactor/reactor_linux.go:476-503 | greedy parsing interrupted anywhere and resumed from the unparsed rest gives the same commands and the same end |
| `Reactor.Connection.HandleRead` | internal/reactor/reactor_linux.go:386-511 | one read event, on fast path, spill and drain loop alike, is the abstract step on (executed commands, unparsed bytes, closed, verdict) |
| `Reactor.Connection.HandleChunk` | internal/reactor/reactor_linux.go:404-452 | the zero-copy fast path does to the connection what greedy parsing of the chunk says |
| `Reactor.Connection.DrainSlice` | internal/reactor/reactor_linux.go:425-442 | the loop over the rest of the read buffer; the incomplete tail goes to the ring |
| `Reactor.Connection.ReadAll` | internal/reactor/reactor_linux.go:454-474 | the ring gets exactly the bytes of the reads taken, up to a short read |
| `Reactor.Connection.DrainRing` | internal/reactor/reactor_linux.go:476-503 | the drain loop executes the greedy parse of the ring and leaves the unparsed suffix in it |
| `Reactor.Connection.ExecuteCommand` | internal/reactor/reactor_linux.go:372-376 | a command is logged; QUIT closes the connection |
| `Reactor.QuitInAnyCase` | internal/reactor/reactor_linux.go:372-376 | which spellings of QUIT close the connection |
| `Reactor.StepSettles` | internal/reactor/reactor_linux.go:386-511 | after one event the connection is where greedy parsing of all bytes so far puts it |
| `Reactor.RunSettles` | internal/reactor/reactor_linux.go:386-511 | the same after any run of events; a run stops early only when the connection is closed |
| `Reactor.RunBounds` | internal/reactor/reactor_linux.go:386-511 | every run, with QUIT anywhere, executes at least the commands up to the first QUIT and at most all commands of the stream, in order |
| `Reactor.ChunkingIndependence` | internal/reactor/reactor_linux.go:386-511 | without QUIT, every cut of a stream executes the greedy parse of the whole stream, and the ring holds the unparsed suffix |
| `Reactor.SameStreamSameState` | internal/reactor/reactor_linux.go:386-511 | two cuts of one stream without QUIT end in the same state |
| `Reactor.BytewiseRun` | internal/reactor/reactor_linux.go:386-511 | fed byte by byte the connection executes exactly the commands up to the first QUIT |
| `Reactor.WholeRun` | internal/reactor/reactor_linux.go:386-511 | some cut of the stream, however long it is, executes all of its commands |
| `Reactor.CutIsIrrelevantIff` | internal/reactor/reactor_linux.go:372-376 | for streams of any length, the executed commands do not depend on the cut if and only if no command follows the first QUIT |
| `Reactor.LostFromOnce` | internal/reactor/reactor_linux.go:454-474 | there is exactly one read from which on everything is lost: the first from which all reads fill the buffer while bytes are waiting, or the end |
| `Reactor.EveryRunStops` | internal/reactor/reactor_linux.go:386-511 | every run at whose end the peer closes has such a read, and executes exactly what is complete before it |
| `Reactor.CloseLoses` | internal/reactor/reactor_linux.go:454-474 | when the peer closes, the stream's commands are those executed followed by those that the reads from there on complete; nothing is lost if and only if these complete no command |
| `Reactor.FilledThenClosed` | internal/reactor/reactor_linux.go:454-474 | for any such parser, an incomplete command, a read that fills the buffer and the end: nothing is executed |
| `Reactor.PingIsLost` | internal/reactor/reactor_linux.go:454-474 | PING whose line end comes at the front of a full read, whatever the size of the buffer, is not executed |
| `Hnsw.SearchLayer` | internal/datastruct/hnsw.go:264-326 | ends, and returns distinct live nodes in ascending distance that are the ef nearest of all nodes visited; if no more than ef were visited, these are closed under the layer's links |
| `Hnsw.ReturnsReachable` | internal/datastruct/hnsw.go:264-326 | when ef is at least the number of nodes reachable from the entry, exactly these are returned |
| `Hnsw.FindsAll` | internal/datastruct/hnsw.go:264-326 | on a connected layer such a search returns every node |
| `Hnsw.Consider` | internal/datastruct/hnsw.go:306-316 | a neighbour enters the result exactly when there is room or it beats the worst, which is then dropped |
| `Hnsw.GreedyLayer` | internal/datastruct/hnsw.go:384-404 | the walk on one layer ends at a node that can be reached there, not farther than its start and with no nearer neighbour |
| `Hnsw.BestNeighbor` | internal/datastruct/hnsw.go:389-402 | the nearest of the current node and its live neighbours |
| `Hnsw.Descend` | internal/datastruct/hnsw.go:384-404 | the descent is such a walk on every layer from the top down, one after the other, and ends not farther than the entry point |
| `Hnsw.HnswIndex.Search` | internal/datastruct/hnsw.go:362-431 | dimension check; the nearest k of what a search of layer 0 finds from where the descent ends, live, with their distances, in ascending order, none exactly when there is no entry point; equal to a brute-force top K when the entry point is in order, layer 0 is connected and ef covers it |
| `Hnsw.ResultIsTopK` | internal/datastruct/hnsw.go:406-410 | a wide enough layer search, cut to k, is a brute-force top K |
| `Hnsw.ListBounds` | internal/datastruct/hnsw.go:219-247 | up to 32 neighbours on layer 0 and 16 above |
| `Hnsw.PruneNeighbors` | internal/datastruct/hnsw.go:335-359 | the m nearest live nodes of the list, in order, dead ones dropped |
| `Hnsw.LinkBack` | internal/datastruct/hnsw.go:234-247 | a link back is added where the neighbour has the layer, and its list is pruned to the bound |
| `Hnsw.LinkLayer` | internal/datastruct/hnsw.go:221-247 | the new node's list holds the nearest candidates, each of these has it linked in, nobody else and no other layer changes, and all bounds hold |
| `Hnsw.LinkedInMeans` | internal/datastruct/hnsw.go:234-247 | a list that a node was linked into names it, or is full of live nodes no farther than it |
| `Hnsw.InsertLinks` | internal/datastruct/hnsw.go:187-252 | on every layer that the new node shares with the graph it is linked both ways to the nearest of what a search finds there, from where the descent ended or from the nearest of the layer above; no other list changes, and every list stays within M, or M0 on layer 0 |
| `Hnsw.NewNodeIsLinked` | internal/datastruct/hnsw.go:187-252 | so a new node has a neighbour on each of these layers |
| `Hnsw.LinkTwo` | internal/datastruct/hnsw.go:151-261 | two vectors inserted one after the other link to each other |
| `Hnsw.TwoVectors` | internal/datastruct/hnsw.go:362-431 | and a search for one finds both |
| `Hnsw.HnswIndex.Insert` | internal/datastruct/hnsw.go:151-261 | from every state, dimension check, update of a known vector, or a new node, linked as InsertLinks says and never without a neighbour unless there was no entry point; starting in order, the entry point stays live and on the highest level if and only if the node is refused, known or named, or has no name but joins a non-empty index at or below its top level; starting out of order, exactly when a new node puts it right |
| `Hnsw.HnswIndex.InsertNew` | internal/datastruct/hnsw.go:181-258 | the new node and its links, the others' vectors and levels, the new entry point, and exactly when it is in order; without an entry point the new node takes its place and is linked to nothing |
| `Hnsw.UnnamedEntry` | internal/datastruct/hnsw.go:181-185 | a vector without a name in an empty index: the next search finds nothing, and the next vector becomes the entry point below it, without a link |
| `Hnsw.RemoveReferences` | internal/datastruct/hnsw.go:444-458 | the node is taken out of the lists of those it links to, and nothing else changes |
| `Hnsw.HnswIndex.Delete` | internal/datastruct/hnsw.go:434-475 | false exactly for an unknown node; otherwise it is gone; the entry point, when it was the one deleted, is again live and on the highest level, or empty with the graph, except when a node without a name is a highest of those left, and certainly not when it is the only one |
| `Hnsw.HighestNode` | internal/datastruct/hnsw.go:462-472 | a node on the highest level, or none |
| `Hnsw.HnswIndex.constructor` | internal/datastruct/hnsw.go:81-99 | an empty index |
| `Crc64.InitTable` | internal/persistence/crc64.go:13-25 | entry i is eight bits of polynomial division of i |
| `Crc64.TableStep` | internal/persistence/crc64.go:65-70 | one table lookup equals eight steps of bit-by-bit division, for every state and byte |
| `Crc64.UpdateCRC64` | internal/persistence/crc64.go:65-70 | the table-driven loop equals bit-by-bit division of the whole input |
| `Crc64.ChecksumInjective` | internal/persistence/crc64.go:65-70 | no input loses information about the running state |
| `Crc64.ChecksumAppend` | internal/persistence/crc64.go:65-70 | checksumming in pieces is checksumming the whole |
| `Crc64.ChecksumOfBlock` | internal/persistence/crc64.go:65-70 | up to eight bytes act on the state as one word |
| `Crc64.BlockInjective` | internal/persistence/crc64.go:65-70 | two different blocks of equal length up to eight bytes lead to different states |
| `Crc64.JonesDetectsBursts` | internal/persistence/crc64.go:13-25 | with the polynomial in use, any change confined to eight consecutive bytes changes the checksum |
| `Crc64.BurstDetected` | internal/persistence/crc64.go:65-70 | the same for every polynomial whose top bit is set |
| `Snapshot.VarintRoundTrip` | internal/persistence/rdb.go:568-580 | reading inverts writing for every unsigned 64-bit number, whatever follows |
| `Snapshot.VarintFirst` | internal/persistence/rdb.go:568-580 | the low bits come first, and the top bit says whether more follow |
| `Snapshot.StringRoundTrip` | internal/persistence/rdb.go:547-566 | the same for strings |
| `Snapshot.LERoundTrip` | internal/persistence/rdb.go:115-118 | the same for fixed-width little-endian numbers |
| `Snapshot.LELast` | internal/persistence/rdb.go:115-118 | the last byte of a number counts most |
| `Snapshot.CountedRoundTrip` | internal/persistence/rdb.go:307-545 | a counted sequence is read back if its items are |
| `Snapshot.ListingIsMap` | internal/persistence/rdb.go:307-423 | any order in which a map is written out gives the map back |
| `Snapshot.MeaningOfWritten` | internal/persistence/rdb.go:307-423 | whatever order the writer chose, what was written means the value |
| `Snapshot.ValueRoundTrip` | internal/persistence/rdb.go:307-545 | decoding inverts encoding for all seven types, leaving what follows |
| `SnapshotFile.SaveLoad` | internal/persistence/rdb.go:65-303 | loading a saved snapshot delivers exactly the unexpired records in order, with type, expiry and value, and the auxiliary map |
| `SnapshotFile.DatabaseRoundTrip` | internal/persistence/rdb.go:65-303 | whatever order the maps are written in, loading gives the database back without what has expired, in the values it had |
| `SnapshotFile.LiveTwice` | internal/persistence/rdb.go:94-106 | dropping the expired when saving and again when loading is dropping them once, at the later time |
| `SnapshotFile.ScanBody` | internal/persistence/rdb.go:194-285 | everything behind the header is read back |
| `SnapshotFile.ScanRecords` | internal/persistence/rdb.go:235-284 | records are read back one by one, expired ones skipped |
| `SnapshotFile.LiveMeans` | internal/persistence/rdb.go:97-105 | records without a deadline or with one still to come |
| `SnapshotFile.PayloadVerdict` | internal/persistence/rdb.go:287-302 | an undamaged payload passes the checksum comparison |
| `SnapshotFile.DamageDetected` | internal/persistence/rdb.go:287-300 | a file damaged within eight consecutive payload bytes loads exactly when the stored checksum is zero and the damaged payload is still readable |
| `SnapshotFile.SumsDiffer` | internal/persistence/rdb.go:287-300 | such damage always changes the checksum |
| `SnapshotFile.ZeroIsNotCompared` | internal/persistence/rdb.go:298-300 | with a zero in place of the checksum any readable payload is loaded |
| `SnapshotFile.UncheckedVersions` | internal/persistence/rdb.go:298-300 | files with different checksums that are all loaded so |
| `SnapshotFile.ChecksumWriter.Write` | internal/persistence/rdb.go:72-74 | the writer's running checksum is that of everything written |
| `SnapshotFile.Select` | internal/persistence/rdb.go:94-106 | the records kept, and how many of them expire |
| `SnapshotFile.WritePayload` | internal/persistence/rdb.go:72-140 | the payload written, with its checksum |
| `SnapshotFile.SaveRDB` | internal/persistence/rdb.go:65-161 | the code's writer produces the specified file |
| `SnapshotFile.LoadRDB` | internal/persistence/rdb.go:164-303 | the code's loader computes the specified outcome, errors and partial deliveries included |
| `SnapshotFile.ReadRecords` | internal/persistence/rdb.go:194-285 | the opcode loop computes the specified scan |
| `StreamIds.ParseText` | internal/datastruct/stream.go:34-55 | parsing inverts printing of IDs |
| `StreamIds.ParseMillis` | internal/datastruct/stream.go:34-56 | a number alone is the first ID of that millisecond |
| `StreamIds.CompareText` | internal/datastruct/stream.go:58-86 | comparing an ID with any text is comparing it with the bound the text stands for |
| `StreamIds.CompareTexts` | internal/datastruct/stream.go:58-86 | on printed IDs the comparison is the order of (ms, seq), and equal only for equal IDs |
| `StreamIds.CompareAcross` | internal/datastruct/stream.go:58-86 | a bound that separates puts the IDs below it before those at or above it |
| `StreamIds.IdSeparates` | internal/datastruct/stream.go:58-86 | every bound that is an ID, and the two ends, separate |
| `StreamEntries.UndeliveredIsAboveIff` | internal/datastruct/stream.go:437-458 | what a ">" read has still to deliver is what lies above the cursor, for any cursor text, if and only if nothing behind its first entry is at or below the cursor |
| `StreamEntries.UndeliveredIsAbove` | internal/datastruct/stream.go:437-458 | with a cursor that separates it always is |
| `StreamEntries.SortIds` | internal/datastruct/stream.go:467-475 | the sorted listing of a map's IDs |
| `StreamEntries.IndexEntries` | internal/datastruct/stream.go:462-465 | the lookup table of the entries |
| `StreamEntries.LookupsAreThose` | internal/datastruct/stream.go:462-490 | looking sorted IDs up is selecting those entries from the stream |
| `ConsumerGroups.ConsumerListIsShare` | internal/datastruct/stream.go:393-546 | agreement of the two pending lists determines each consumer's list |
| `ConsumerGroups.GivenAgrees` | internal/datastruct/stream.go:443-452 | giving any number of entries to a consumer keeps the lists in agreement if and only if none of them was pending for somebody else |
| `ConsumerGroups.NextReadAgreesIff` | internal/datastruct/stream.go:436-452 | from a cursor, reads of any length by any consumer keep the lists in agreement if and only if no undelivered entry is pending |
| `ConsumerGroups.BehindIsSafe` | internal/datastruct/stream.go:436-452 | so they do when nothing above the cursor is pending |
| `ConsumerGroups.FewerBehind` | internal/datastruct/stream.go:393-516 | acknowledging and deleting leave it so |
| `ConsumerGroups.ConsumerGroup.constructor` | internal/datastruct/stream.go:336-360 | a group starts without consumers and pending entries |
| `ConsumerGroups.ConsumerGroup.Register` | internal/datastruct/stream.go:422-431 | a consumer is created on its first read and keeps its list afterwards |
| `ConsumerGroups.ConsumerGroup.Deliver` | internal/datastruct/stream.go:439-452 | one message: cursor, both pending lists, and the delivery log; in every state the group's list stays part of the consumers' lists |
| `ConsumerGroups.ConsumerGroup.DeliverFrom` | internal/datastruct/stream.go:436-458 | the loop delivers one consecutive stretch of the stream |
| `ConsumerGroups.ConsumerGroup.ReadNew` | internal/datastruct/stream.go:436-458 | a ">" read returns the undelivered entries up to count, moves the cursor to the last of them, and marks each pending for this consumer in both lists unless NOACK; lists that agreed still agree if and only if none was pending for somebody else |
| `ConsumerGroups.ReadKeepsOrder` | internal/datastruct/stream.go:436-458 | over all consumers, what was delivered since the cursor was set stays strictly ascending and complete |
| `ConsumerGroups.ConsumerGroup.ReadPending` | internal/datastruct/stream.go:459-491 | any other read returns what is in the consumer's own list and still exists, in order, and counts it as delivered again |
| `ConsumerGroups.ReadFromId` | internal/datastruct/stream.go:459-491 | from an ID on: what is in the list and not before it |
| `ConsumerGroups.Replay` | internal/datastruct/stream.go:477-490 | re-read entries get one more delivery and the new time, the others stay as they are |
| `ConsumerGroups.ConsumerGroup.Read` | internal/datastruct/stream.go:413-494 | both kinds of read, in any state: results, order, and exactly when the two lists still agree |
| `ConsumerGroups.ConsumerGroup.Ack` | internal/datastruct/stream.go:496-516 | exactly the named pending entries leave the group's list and that of the consumer each belongs to, and the count is their number |
| `ConsumerGroups.ConsumerGroup.AckOne` | internal/datastruct/stream.go:506-514 | one acknowledgement |
| `ConsumerGroups.ConsumerGroup.DeleteConsumer` | internal/datastruct/stream.go:393-411 | the consumer and what is in its list go, and are counted; with lists that agree these are exactly its entries |
| `ConsumerGroups.ConsumerGroup.PendingSummary` | internal/datastruct/stream.go:518-546 | total, least and greatest ID, and how many of the group's entries belong to each consumer; the lengths of the consumers' lists when the two agree |
| `ConsumerGroups.Summarise` | internal/datastruct/stream.go:532-543 | the loop over the pending list in any order |
| `ConsumerGroups.ConsumerGroup.SetID` | internal/datastruct/stream.go:373-391 | moving the cursor touches neither list |
| `ConsumerGroups.PendingTwice` | internal/datastruct/stream.go:436-452 | two reads with ">" by two consumers, the cursor set back in between, leave one entry pending for both |
| `ConsumerGroups.AckedOnce` | internal/datastruct/stream.go:496-516 | acknowledging it then leaves it in the first consumer's list, where nothing finds it any more |
| `ConsumerGroups.DeliveryCompletes` | internal/datastruct/stream.go:436-458 | no live entry between the start and the cursor is skipped |
| `ConsumerGroups.DeliveryKeepsOrder` | internal/datastruct/stream.go:436-458 | no entry is given twice, and the order ascends |
| `Streams.LastIdRises` | internal/datastruct/stream.go:125-179 | an added ID is above the last one if and only if the sequence number does not overflow and no lower explicit ID starts an emptied stream |
| `Streams.NextIsLeast` | internal/datastruct/stream.go:125-179 | an automatic ID is the least one after the last at the requested millisecond, or not before the clock |
| `Streams.RefusedIff` | internal/datastruct/stream.go:125-179 | which requests are refused and why; an explicit ID that is not refused is taken as it is |
| `Streams.RequestForms` | internal/datastruct/stream.go:125-179 | "*", a millisecond with "-*", and a printed ID are the three kinds of request |
| `Streams.AddKeepsOrdered` | internal/datastruct/stream.go:125-179 | adding keeps the stream ascending if and only if the sequence number does not wrap below an entry of the same millisecond |
| `Streams.SequenceOverflows` | internal/datastruct/stream.go:125-179 | an entry that goes before the last one |
| `Streams.StreamRestarts` | internal/datastruct/stream.go:125-179 | a lower ID accepted by an emptied stream |
| `Streams.Stream.constructor` | internal/datastruct/stream.go:117-123 | an empty stream |
| `Streams.Stream.Add` | internal/datastruct/stream.go:125-179 | which ID is assigned or refused, the entry at the end, exactly when the stream stays consistent, and for every group exactly when its deliveries stay in order: when it has not already passed the ID without delivering it |
| `Streams.InOrderWithIff` | internal/datastruct/stream.go:125-179 | a new entry leaves a group's deliveries ascending and complete if and only if its ID is not above the group's start, at or below the last one delivered, and undelivered |
| `Streams.Stream.Range` | internal/datastruct/stream.go:206-228 | the entries met before the loop gives up, up to count |
| `Streams.RangeIsBetweenIff` | internal/datastruct/stream.go:206-228 | for any two bounds, giving up early loses nothing if and only if nothing behind the stop is between them |
| `Streams.RangeIsBetween` | internal/datastruct/stream.go:206-228 | with an upper bound that separates nothing is lost |
| `Streams.RangeIsSafeIff` | internal/datastruct/stream.go:206-228 | the upper bounds with which no stream loses anything are exactly those that separate |
| `Streams.Stream.RevRange` | internal/datastruct/stream.go:231-254 | the backward loop, up to count |
| `Streams.RevRangeIsReversedIff` | internal/datastruct/stream.go:231-254 | for any two bounds, the backward range is the forward range reversed if and only if nothing before its stop is between them |
| `Streams.RevRangeIsReversed` | internal/datastruct/stream.go:231-254 | with a lower bound that separates it always is |
| `Streams.RevRangeIsSafeIff` | internal/datastruct/stream.go:231-254 | the lower bounds with which no stream loses anything are exactly those that separate |
| `Streams.BetweenMembers` | internal/datastruct/stream.go:206-254 | a range holds exactly the entries between the bounds |
| `Streams.BoundsMean` | internal/datastruct/stream.go:206-254 | no bounds, or "-" and "+", admit every entry; two IDs admit what is neither below nor above |
| `Streams.Stream.Delete` | internal/datastruct/stream.go:278-298 | exactly the named entries go, the count is exact, and no group's delivery becomes incomplete |
| `Streams.ExactlyIsText` | internal/datastruct/stream.go:278-298 | an ID is found only under its printed form |
| `Streams.NamedByText` | internal/datastruct/stream.go:278-298 | the IDs named by a list of texts |
| `Streams.Stream.Trim` | internal/datastruct/stream.go:301-312 | the oldest entries go, down to the limit |
| `Streams.Stream.CreateGroup` | internal/datastruct/stream.go:336-360 | a new group at its cursor; false if it exists |
| `Streams.EndDeliversNothing` | internal/datastruct/stream.go:336-360 | a group created at "$" has nothing to deliver yet |
| `Streams.Stream.DestroyGroup` | internal/datastruct/stream.go:362-371 | the group goes, the others stay |
| `Streams.Stream.SetGroupID` | internal/datastruct/stream.go:373-391 | the cursor moves, no pending list changes, other groups are untouched |
| `Streams.Stream.DeleteConsumer` | internal/datastruct/stream.go:393-411 | what is in the consumer's list goes and is counted; other groups are untouched |
| `Streams.Stream.ReadGroup` | internal/datastruct/stream.go:413-494 | either kind of read through the stream: result, log, pending lists, exactly when these still agree, other groups untouched, order kept for all groups |
| `Streams.Stream.Ack` | internal/datastruct/stream.go:496-516 | the named entries leave the group's pending list and are counted |
| `Sessions.WatchSetMeaning` | internal/engine/engine.go:527-555 | a client's watch set is what it watched and has not given up since |
| `Sessions.DirtyMeaning` | internal/engine/engine.go:401-413 | the abort flag is set exactly when a watched key was reported by a later write |
| `Sessions.DirtyWatches` | internal/engine/engine.go:401-413 | an aborted session still has watches |
| `Sessions.AbortedWatches` | internal/engine/engine.go:401-413 | the same for the stored sessions |
| `Sessions.TouchFollows` | internal/engine/engine.go:401-413 | marking the watchers of the written keys follows the history |
| `Sessions.TouchNobody` | internal/engine/engine.go:401-404 | while the counter is zero nothing needs marking |
| `Sessions.WatchFollows` | internal/engine/engine.go:527-544 | WATCH follows the history |
| `Sessions.ForgetFollows` | internal/engine/engine.go:239-248 | closing, EXEC, DISCARD and UNWATCH follow it too |
| `Sessions.WatchersChange` | internal/engine/engine.go:239-248 | how the counter must move when one session changes |
| `Transactions.Engine.GetClientSession` | internal/engine/engine.go:224-237 | a session is created on first use and changes nothing else |
| `Transactions.Engine.ClearClientSession` | internal/engine/engine.go:239-248 | the session goes and the counter stays exact |
| `Transactions.Engine.Execute` | internal/engine/engine.go:270-362 | a command does to sessions, counter, keyspace and reply exactly what the state machine says |
| `Transactions.Engine.ExecuteInMulti` | internal/engine/engine.go:331-354 | EXEC, DISCARD, nested MULTI and queueing |
| `Transactions.Engine.ExecuteTransaction` | internal/engine/engine.go:418-458 | null or the queue's results in order, with the session reset first |
| `Transactions.Engine.Dispatch` | internal/engine/engine.go:356-362 | one command, and the reporting of its keys when it wrote |
| `Transactions.Engine.StartWatching` | internal/engine/engine.go:527-544 | WATCH adds keys and counts the session once |
| `Transactions.Engine.StopWatching` | internal/engine/engine.go:546-555 | the end of watching, counted once |
| `Transactions.Engine.TouchWatchedKey` | internal/engine/engine.go:401-413 | exactly the sessions that watch the key are marked |
| `Transactions.Engine.Report` | internal/engine/engine.go:356-362 | skipping the report when nobody watches loses nothing |
| `Transactions.ServedSound` | internal/engine/engine.go:270-362 | every command keeps the sessions in step with the history |
| `Transactions.RunSound` | internal/engine/engine.go:239-555 | every run of commands and disconnections does |
| `Transactions.ExecIsNullIffInterfered` | internal/engine/engine.go:418-458 | in every run, EXEC returns null and runs nothing if and only if a write reporting a watched key came after WATCH; otherwise the keyspace commands of the queue, whatever else is queued, run in order on the keyspace and give their replies in order |
| `Transactions.QueueIsWhatWasSent` | internal/engine/engine.go:331-354 | after MULTI the queue is what the client sent since, in order, whatever others do |
| `Transactions.EveryOtherMeans` | internal/engine/engine.go:2582-2612 | MSET reports the arguments at even places |
| `Transactions.EvalKeys` | internal/engine/engine.go:2582-2612 | EVAL and EVALSHA report as many arguments as they announce, if there are so many |
| `Transactions.OthersServed` | internal/engine/engine.go:270-362 | no command of one client touches another's queue |
| `Transactions.StepsRunAll` | internal/engine/engine.go:440-457 | running any queue step by step is running its keyspace commands in sequence, and WATCH and UNWATCH in between leave the keyspace alone |
| `Transactions.Engine.constructor` | internal/engine/engine.go:23-30 | no sessions, nobody watching |
| `Transactions.Engine.FastWrite` | internal/reactor/reactor_linux.go:290-371 | the short cut steps aside exactly when the client is in MULTI, anybody watches or it has no way of its own; otherwise it writes in its own way, and for all sessions and for the history that is as if the full path had run |
| `Transactions.FastLikeServed` | internal/reactor/reactor_linux.go:290-371 | with nobody watching, skipping the sessions is not observable |
| `Dialogue.TransactionIsWhatWasSent` | internal/engine/engine.go:332-354 | in every run a client is in MULTI exactly when it sent MULTI and since then neither EXEC nor DISCARD and did not go away; its queue is then what it sent since, and otherwise empty |
| `Dialogue.NothingCarriesOver` | internal/engine/engine.go:331-354 | what was sent before a DISCARD, an EXEC or a disconnection is in no later queue |
| `Dialogue.DiscardEnds` | internal/engine/engine.go:332-346 | DISCARD inside MULTI leaves a fresh session and the keyspace as it was |
| `Dialogue.ExecEnds` | internal/engine/engine.go:418-458 | EXEC leaves MULTI and empties the queue; null exactly when aborted, and then nothing has run; otherwise what the queue's own WATCH and UNWATCH leave watched |
| `Dialogue.WatchedByMeans` | internal/engine/engine.go:527-555 | that is the keys of every WATCH behind the last UNWATCH |
| `Dialogue.QueuedInMulti` | internal/engine/engine.go:331-354 | anything else inside MULTI is answered QUEUED and does nothing but join the queue; another MULTI is refused |
| `Dialogue.OutsideMulti` | internal/engine/engine.go:515-555 | outside MULTI: what MULTI, WATCH and UNWATCH change, and that EXEC, DISCARD and an empty WATCH are refused |
| `Dialogue.DataOutsideMulti` | internal/engine/engine.go:356-362 | a keyspace command outside MULTI runs at once |
| `Dialogue.OthersSee` | internal/engine/engine.go:401-413 | a command aborts another client's transaction exactly when it runs a write that reports a key watched there, and changes nothing else of that client's session |
| `Votes.RunsAreOrderly` | internal/cluster/gossip.go:103-209 | in every run without epoch overflow each node grants in strictly rising epochs, none above its current one |
| `Votes.EpochNeverFalls` | internal/cluster/gossip.go:124-127 | an epoch never falls, except exactly when a candidate counts past the largest |
| `Votes.OneVotePerEpoch` | internal/cluster/gossip.go:174-201 | a node grants at most one vote per epoch |
| `Votes.AcksAreDisjoint` | internal/cluster/gossip.go:174-201 | the voters of two candidates in one epoch are disjoint |
| `Votes.OnlyElectorsGrant` | internal/cluster/gossip.go:174-201 | only a master asked about a failed master grants |
| `Votes.VotesAreLimited` | internal/cluster/gossip.go:174-201 | all votes of an epoch together are at most the masters asked |
| `Votes.MajorityIsUnique` | internal/cluster/gossip.go:449-507 | a majority of acknowledgements of the same masters goes to one candidate only |
| `Votes.TwoWinners` | internal/cluster/gossip.go:477-513 | a run of two masters and two replicas in which both replicas stand and are elected in one epoch |
| `Votes.TwoCanWin` | internal/cluster/gossip.go:477-513 | for any set of masters, any epoch and any two replicas there is such a run |
| `Votes.WinnerAloneIff` | internal/cluster/gossip.go:477-513 | over all runs, a replica with so many acknowledgements excludes a second winner in its epoch if and only if they are more than the masters less half of them |
| `SlotTable.BitsAreDetermined` | internal/cluster/cluster.go:96-226 | table and bits in agreement: each node's bits are exactly its entries in the table |
| `SlotTable.GiveAgrees` | internal/cluster/cluster.go:121-143 | handing a slot over keeps agreement |
| `SlotTable.FreeAgrees` | internal/cluster/cluster.go:146-166 | freeing a slot keeps it |
| `SlotTable.JoinedAgrees` | internal/cluster/cluster.go:45-78 | a new node without slots keeps it |
| `SlotTable.LeftAgrees` | internal/cluster/cluster.go:245-267 | removing a node and its entries keeps it |
| `SlotTable.PutMeaning` | internal/cluster/cluster.go:96-143 | a list of slots set one by one: listed slots change, others do not |
| `Cluster.ClusterManager.constructor` | internal/cluster/cluster.go:45-78 | a node alone, owning nothing |
| `Cluster.ClusterManager.AddSlots` | internal/cluster/cluster.go:96-118 | all or nothing: granted exactly when every slot is free or already its own |
| `Cluster.ClusterManager.AssignSlotsToNode` | internal/cluster/cluster.go:121-143 | slots go to the node up to the first one out of range |
| `Cluster.ClusterManager.DelSlots` | internal/cluster/cluster.go:146-166 | all or nothing: exactly when every slot is its own |
| `Cluster.ClusterManager.SetSlotNode` | internal/cluster/cluster.go:186-199 | one slot changes hands |
| `Cluster.ClusterManager.RemoveNode` | internal/cluster/cluster.go:245-267 | the node's slots become free; the local node cannot be removed |
| `Cluster.ClusterManager.Replicate` | internal/cluster/cluster.go:270-301 | becoming a replica gives up exactly the own slots |
| `Cluster.ClusterManager.ProcessPacket` | internal/cluster/gossip.go:103-209 | any packet: the sender and its role become known; a node is failed afterwards exactly when it was and did not send the packet, or is another than the local one and named by a PING's or PONG's gossip or by a FAIL; claims, epoch and vote as below; PONG is answered exactly to PING |
| `Cluster.ClusterManager.SyncSlots` | internal/cluster/gossip.go:129-147 | a master's claims are believed except on own slots against an older epoch |
| `Cluster.ClusterManager.Believe` | internal/cluster/gossip.go:124-147 | the epoch of any sender and the claims of a master, as one step on the voter and the owners |
| `Cluster.ClusterManager.ProcessGossip` | internal/cluster/gossip.go:211-236 | exactly the reported nodes, except the local one, are marked failed |
| `Cluster.ClusterManager.Vote` | internal/cluster/gossip.go:174-201 | a vote is granted exactly by a master, for a failed master, in a new enough epoch |
| `Cluster.ClusterManager.RegisterSender` | internal/cluster/gossip.go:108-122 | an unknown sender becomes a node without slots, in the role it claims; a sender is not failed |
| `Cluster.ClusterManager.MarkFailed` | internal/cluster/gossip.go:164-172 | a failure broadcast marks that node, never the local one |
| `Cluster.ClusterManager.StandForElection` | internal/cluster/gossip.go:438-456 | only a replica stands, in the next epoch |
| `Cluster.ClusterManager.PromoteReplica` | internal/cluster/gossip.go:519-546 | the promoted node has its own slots and the failed master's, and nobody else's change |
| `Rebalance.TargetsAddUp` | internal/cluster/rebalancer.go:46-69 | the targets share out all slots |
| `Rebalance.Classify` | internal/cluster/rebalancer.go:80-95 | surplus slots and shortfalls of every master |
| `Rebalance.Match` | internal/cluster/rebalancer.go:97-133 | the nested loops pair the k-th surplus slot with the k-th shortfall, as many as there are of both, and count exactly |
| `Rebalance.ComputeRebalancePlan` | internal/cluster/rebalancer.go:41-141 | for masters in any order, no plan below two; otherwise the shortest plan in ID order; when the masters share all slots, every named move takes its slot from the node that holds it, and carrying the moves out leaves every node ID with as many slots as the plan's final counts say, which is its target |
| `Rebalance.NamedPlanIsLegal` | internal/cluster/rebalancer.go:105-130 | every named move takes its slot from the node that holds it then |
| `Rebalance.NamedPlanBalances` | internal/cluster/rebalancer.go:105-130 | and all of them leave each node with its target |
| `Rebalance.Balance` | internal/cluster/rebalancer.go:80-95 | surplus and shortfall differ as the totals do |
| `Rebalance.PlanReachesTargets` | internal/cluster/rebalancer.go:80-133 | when the lists hold all slots, every master ends at its target |
| `Rebalance.PlanIsShortest` | internal/cluster/rebalancer.go:80-133 | no plan that reaches the targets has fewer moves |
| `Rebalance.AnyPlanNeeds` | internal/cluster/rebalancer.go:80-133 | every such plan has at least as many moves as there is surplus |
| `Rebalance.PlanIsLegal` | internal/cluster/rebalancer.go:80-133 | each slot moves at most once, and from its owner |
| `Rebalance.PlanBalances` | internal/cluster/rebalancer.go:80-133 | applied to a partition, the plan gives a partition with every master holding its target |
| `Rebalance.HoldingsFollowCounts` | internal/cluster/rebalancer.go:113-124 | what the masters hold follows the counts, move by move |
| `Rebalance.EvenNeedsNoMoves` | internal/cluster/rebalancer.go:80-133 | a layout at the targets needs no moves |
| `Rebalance.PartitionSlots` | internal/operator/controller.go:30-54 | consecutive runs that partition all slots at the targets; none for no masters |
| `Resp.WriteIsSerialize` | internal/resp/writer.go:131-201 | the writer and the serializer agree on values without booleans, and differ in length by the booleans |
| `Resp.AppendIsSerialize` | internal/reactor/serializer.go:18-102 | the reactor's appender agrees with the serializer in the same way |
| `Resp.PrintersAgree` | internal/reactor/serializer.go:18-102 | the three printers agree if and only if the value has no boolean |
| `Resp.TrueInThreeWays` | internal/reactor/serializer.go:18-102 | the three printed forms of true |
| `Resp.ReadsBack` | internal/resp/parser.go:33-174 | reading inverts printing for nested values within the size limits, leaving what follows |
| `Resp.ItemsReadBack` | internal/resp/parser.go:141-174 | the same for the elements of an array |
| `Resp.ValueExtends` | internal/resp/parser.go:33-195 | a value that was read stays the same when more bytes follow |
| `Resp.NoPartialRead` | internal/resp/parser.go:33-195 | no proper prefix of a value can be read |
| `Resp.Reader.NextValue` | internal/resp/parser.go:33-91 | the stateful reader computes the specified value and rest |
| `Resp.Reader.NextLine` | internal/resp/parser.go:93-107 | the scan for the line feed: on success the line, its end and the new rest make up the old rest, and a carriage return before the feed is never left on the line; on failure the cursor stays |
| `Resp.LineMeaning` | internal/resp/parser.go:93-107 | a line is taken whole; it is missing exactly when the bytes end first, and too long exactly when the buffer fills first |
| `Resp.Reader.NextBulk` | internal/resp/parser.go:109-139 | a bulk string: null, limits, missing line end |
| `Resp.Reader.NextArray` | internal/resp/parser.go:141-174 | an array: null, limits, elements in order |
| `Resp.InlineReadsBack` | internal/resp/parser.go:177-235 | any words, quoted and escaped, are read back from an inline command |
| `Resp.PlainWord` | internal/resp/parser.go:177-235 | without quotes, blanks and tabs separate |
| `Resp.InlineCommand` | internal/resp/parser.go:177-195 | a line with none of the seven prefixes is read as an inline command |
| `Resp.OtherLines` | internal/resp/parser.go:71-87 | single quotes, null and booleans |
| `AppendLog.SerializeCommandLoop` | internal/resp/writer.go:204-217 | the loop prints the command |
| `AppendLog.CommandIsValue` | internal/resp/writer.go:204-217 | printing a command is printing the array of its arguments |
| `AppendLog.CommandReadsBack` | internal/resp/parser.go:237-264 | reading a command inverts printing it |
| `AppendLog.NoPartialCommand` | internal/resp/parser.go:237-264 | part of a printed command is no command |
| `AppendLog.NextCommand` | internal/resp/parser.go:237-264 | the stateful reader computes the specified command and rest |
| `AppendLog.AOF.WriteCommand` | internal/persistence/aof.go:68-85 | the log is the commands written, in order |
| `AppendLog.CutReplays` | internal/persistence/aof.go:102-128 | a log cut at any byte replays exactly the commands fully before the cut |
| `AppendLog.WholeReplays` | internal/persistence/aof.go:102-128 | the whole log replays without error |
| `AppendLog.Replay` | internal/persistence/aof.go:102-128 | the replay loop computes the specified deliveries and verdict |
| `CommandRoundTrip.ReactorReadsBack` | internal/reactor/parser.go:19-122 | the reactor's parser inverts command printing, whatever follows |
| `CommandRoundTrip.ItemReadsBack` | internal/reactor/parser.go:61-119 | the same for one argument |
| `CommandRoundTrip.DigitsAreNumber` | internal/reactor/parser.go:42-50 | digits within 63 bits are read without wrapping |
| `CommandRoundTrip.HugeLengthPanics` | internal/reactor/parser.go:109-113 | a one-argument command that announces a length up to 2^63 - 1 panics, whatever follows, if and only if the length is one of the two greatest |
| `Keyspaces.Fnv1a` | internal/engine/keyspace.go:89-105 | the unrolled hash equals hashing byte by byte |
| `Keyspaces.Keyspace.constructor` | internal/engine/keyspace.go:74-86 | 256 empty shards and a counter of zero |
| `Keyspaces.Keyspace.GetShard` | internal/engine/keyspace.go:107-109 | every key has one shard |
| `Keyspaces.Keyspace.Reap` | internal/engine/keyspace.go:112-148 | active expiry changes nothing that can be seen, now or later, and keeps the counter exact |
| `Keyspaces.Keyspace.Get` | internal/engine/keyspace.go:150-176 | a visible entry or none; dropping an expired one changes nothing visible |
| `Keyspaces.Keyspace.SetString` | internal/engine/keyspace.go:180-202 | the string is stored; the counter gets one too high if and only if a value of another type is overwritten |
| `Keyspaces.Keyspace.Set` | internal/engine/keyspace.go:204-216 | the entry is stored, and counted if new |
| `Keyspaces.Keyspace.SetNX` | internal/engine/keyspace.go:220-240 | stored exactly when the key cannot be seen |
| `Keyspaces.Keyspace.IncrBy` | internal/engine/keyspace.go:243-291 | on the visible map: creation, type error, parse error, or the wrapped sum |
| `Keyspaces.Keyspace.Append` | internal/engine/keyspace.go:294-334 | creation, type error, or the visible text followed by the argument, and its length |
| `Keyspaces.Keyspace.GetOrCreate` | internal/engine/keyspace.go:338-366 | on the visible map: the entry, or a new one |
| `Keyspaces.Keyspace.Delete` | internal/engine/keyspace.go:433-446 | the keys go; the count is of what was stored |
| `Keyspaces.DeleteCountsSeenIff` | internal/engine/keyspace.go:433-446 | that count is the number of visible keys deleted if and only if none of them had expired unnoticed |
| `Keyspaces.ExpiredIsCounted` | internal/engine/keyspace.go:433-446 | one that had |
| `Keyspaces.Keyspace.Expire` | internal/engine/keyspace.go:458-476 | a deadline exactly for a visible key |
| `Keyspaces.Keyspace.Persist` | internal/engine/keyspace.go:508-528 | the deadline removed exactly from a visible key that has one |
| `Keyspaces.Keyspace.FlushDB` | internal/engine/keyspace.go:694-702 | nothing is left |
| `Keyspaces.DropExpired` | internal/engine/keyspace.go:112-176 | dropping expired entries changes nothing visible at any later time |
| `Keyspaces.PurgedView` | internal/engine/keyspace.go:150-176 | the same for the one key an operation looks at |
| `Keyspaces.SeenPut` | internal/engine/keyspace.go:204-216 | what storing does to the visible map |
| `Keyspaces.SeenMeans` | internal/engine/keyspace.go:150-176 | entries without a deadline or with one still to come are seen |
| `Keyspaces.IncrementMeans` | internal/engine/keyspace.go:243-291 | exactly when INCRBY counts; the sum in 64 bits in readable text, the deadline kept |
| `SlotRanges.SlotsList` | internal/cluster/node.go:78-86 | the slots of a node in ascending order |
| `SlotRanges.SlotRangesOf` | internal/cluster/node.go:89-120 | the loop computes the grouping into ranges |
| `SlotRanges.GroupedIsTight` | internal/cluster/node.go:89-120 | the ranges are maximal, disjoint and ascending |
| `SlotRanges.GroupedExpands` | internal/cluster/node.go:89-120 | together they hold exactly the slots |
| `SlotRanges.RangesReadBack` | internal/cluster/node.go:89-195 | parsing the printed ranges gives the slots back, for every subset |
| `SlotRanges.TokenReadsBack` | internal/cluster/node.go:171-195 | the same for a single range |
| `SlotRanges.PairIff` | internal/cluster/node.go:171-195 | a range is accepted exactly when its ends are in order and exist |
| `SlotRanges.SortedSorts` | internal/cluster/node.go:171-195 | the slots of any list of ranges come out in ascending order, each as often as it was named |
| `SlotRanges.TokenInRange` | internal/cluster/node.go:171-195 | whatever else is accepted is a range of slots |
| `BusCodec.SlotsToBitmap` | internal/cluster/bus.go:59-67 | bit i of the bitmap is slot i |
| `BusCodec.BitmapToSlots` | internal/cluster/bus.go:70-78 | slot i is bit i of the bitmap |
| `BusCodec.BitmapRoundTrip` | internal/cluster/bus.go:59-78 | unpacking inverts packing for every assignment |
| `BusCodec.PadTrim` | internal/cluster/bus.go:176-180 | what a fixed field keeps of a string |
| `BusCodec.KeptIff` | internal/cluster/bus.go:176-180 | a string survives its field if and only if it fits and does not end in a zero byte |
| `BusCodec.CutInvertsCat` | internal/cluster/bus.go:81-174 | fields laid end to end are cut apart again |
| `BusCodec.PacketReadsBack` | internal/cluster/bus.go:81-174 | what is read back from any packet at all |
| `BusCodec.PacketRoundTripIff` | internal/cluster/bus.go:81-174 | a packet is read back unchanged if and only if its strings fit, none ends in a zero byte, and it has fewer than 65536 gossip entries |
| `BusCodec.EpochPlaces` | internal/cluster/bus.go:81-126 | at which bytes a packet has its kind, its epochs and the count of entries |
| `BusCodec.IdPlaces` | internal/cluster/bus.go:81-126 | the same for node IDs and address |
| `BusCodec.PortPlaces` | internal/cluster/bus.go:81-126 | the same for ports, flags and slots |
| `BusCodec.EntryPlaces` | internal/cluster/bus.go:106-123 | the same for a gossip entry |
| `BusCodec.EntryAt` | internal/cluster/bus.go:106-123 | entry i follows the header, 78 bytes each |
| `BusCodec.BEFirst` | internal/cluster/bus.go:81-126 | the first byte of a number counts most |
| `Isolation.ReportedIsUndisturbed` | internal/engine/engine.go:401-458 | from any state, if the commands that ran in between reported the keys they changed, a transaction that is not null finds each watched key as it was |
| `Isolation.ConcealedIsMissed` | internal/engine/engine.go:2582-2612 | a change that is not reported, by any command, is missed: after WATCH, MULTI and that command by another client, EXEC runs |
| `Isolation.UndisturbedIff` | internal/engine/engine.go:401-458 | over all runs, transactions that are not null find their watched keys as they were, if and only if every command reports the keys it changes |
| `Isolation.FlushIsMissed` | internal/engine/engine.go:716-719 | FLUSHDB and FLUSHALL are such commands: a run in which a watched key is gone and EXEC runs |
| `Isolation.GroupChangeIsMissed` | internal/engine/engine.go:1989-2027 | XGROUP CREATE is one: the same for a stream that gets a group |
| `Isolation.GroupReadIsMissedIff` | internal/engine/engine.go:2083-2175 | XREADGROUP changes a stream unreported if and only if it reads ">" and the group has something undelivered |
| `Isolation.GroupReadIsMissed` | internal/engine/engine.go:2083-2175 | a run in which it does, and EXEC runs |
| `Isolation.AddIsMissedIff` | internal/engine/engine.go:1592-1619 | ZADD changes a sorted set unreported if and only if it meets a score that is not a number after it has stored something or created the set |
| `Isolation.PartialAddIsMissed` | internal/engine/engine.go:1606-1619 | ZADD k 1 a x b: a run in which the watched set has changed and EXEC runs |
| `ShortCut.RunFull` | internal/engine/engine.go:1465-1548 | the engine's SET, INCR and DECR handlers, and DEL, on the keyspace object: what is stored, counted and answered |
| `ShortCut.RunFast` | internal/reactor/reactor_linux.go:318-371 | the reactor's own SET, DEL, INCR and DECR on the keyspace object, falling back when a number cannot be counted |
| `ShortCut.FormsAre` | internal/reactor/reactor_linux.go:318-371 | which commands are served so |
| `ShortCut.FastIsFull` | internal/reactor/reactor_linux.go:318-371 | where there is a short cut it stores and answers the same as the engine, and counts the same if and only if it does not overwrite a value of another type |
| `ShortCut.ShortCutIsUnseen` | internal/reactor/reactor_linux.go:318-371 | with nobody watching, sessions, history, answer and stored entries are those of the full path, and so is the counter unless another type is overwritten |
| `ShortCut.CounterDrifts` | internal/engine/keyspace.go:180-202 | over any run of SET, DEL, INCR and DECR, each by the short cut or by the engine, the counter gets ahead of the stored keys by exactly the number of overwrites of another type by the short cut |
| `LogCuts.BulkCut` | internal/resp/parser.go:109-139 | a bulk string cut off anywhere: an unexpected end only behind its header |
| `LogCuts.CommandCut` | internal/resp/parser.go:141-174 | a command cut off anywhere: which of the two ends of file is reported |
| `LogCuts.CutIsCleanIff` | internal/persistence/aof.go:102-128 | replaying a log cut at any byte returns an error if and only if the cut is behind some argument's header and before the end of its payload and line end |
| `LogCuts.CutInsidePing` | internal/persistence/aof.go:102-128 | a ten-byte log whose replay fails |
| `OddBounds.OddSeparatesIff` | internal/datastruct/stream.go:58-86 | a text that is no ID separates lower from higher IDs if and only if, as text, it is not between 0-10 and 0-9999999999999999999, 1-10 and 1-9999999999999999999, or 10-0 and 9999999999999999999-9999999999999999999 |
| `OddBounds.OddBoundIsNoBound` | internal/datastruct/stream.go:58-86 | the text 2-x does not separate |
| `OddBounds.OddBoundCanSeparate` | internal/datastruct/stream.go:58-86 | the text 0-x does |
| `Isolation.BeginMeans` | internal/datastruct/stream.go:336-360 | "$" is the last ID, or 0-0 while the stream is empty |
| `Decimal.ParseLimits` | internal/resp/parser.go:59-63 | a plus sign is read, and nothing outside 64 bits |
| `AppendLog.WordMeans` | internal/resp/types.go:78-97 | the text of an argument that is no bulk string |

## Left out

- SkipLists.SkipList.Insert: scores are reals, so NaN, which has no place in any order, is not modelled.
- Hnsw.HnswIndex.Search: the conversion of distances to scores and the distance arithmetic itself are not modelled; any metric is allowed. Neighbour lists may name deleted nodes, as in the code; searches pass over them.
- Reactor.Connection.HandleRead: replies, the output buffer and failing writes are not modelled; complete commands that are still in the ring when the peer closes are dropped, as in the code.
- CommandParser.ParseInlineCommandInto: white space beyond ASCII is not modelled.
- CommandParser.ParseRespArrayInto: a failing allocation for a huge argument count is not modelled; the argument slice passed in is never nil.
- Streams.Stream.Add: blocked readers that wait for new entries are not modelled. IDs are held as pairs instead of text; `CompareText` and `ExactlyIsText` tie the two.
- ConsumerGroups.ConsumerGroup.ReadPending: the 64-bit wrap-around of delivery counts is not modelled.
- Transactions.Engine.Execute: authentication, access lists, cluster redirection, logging, replication and memory limits are not modelled; a session object that outlives its connection is not either, nor the panic of EVAL and EVALSHA on a key count near 2^63, where the model reports no key.
- Isolation.GroupChangeIsMissed: of the stream commands only what they do to the cursors of a stream's groups is modelled; a key that expires changes without any command.
- Isolation.AddIsMissedIff: which texts are numbers is a parameter.
- ShortCut.RunFull: SET with options, DEL of several keys and the notifications of changes are not modelled.
- Cluster.ClusterManager.ProcessPacket: an empty sender ID, for which the code generates a fresh one, is not modelled; neither are suspicion reports, the migrating and importing tables, and the log lines, which slice the first eight bytes of an ID and panic on a shorter one.
- Cluster.ClusterManager.RegisterSender: the same holds for the empty sender ID.
- Cluster.ClusterManager.SetSlotNode: of the sub-commands only NODE changes ownership; the others are not modelled.
- Votes.RunsAreOrderly: restarts, which lose the last vote, are not modelled.
- Rebalance.ComputeRebalancePlan: masters must have distinct IDs; addresses in the moves and the execution of the plan are not modelled.
- SnapshotFile.LoadRDB: file operations, errors from the entry handler, and failing allocations for huge lengths are not modelled.
- SnapshotFile.SaveRDB: an entry whose value does not have the type it is tagged with is not modelled. The value codecs work on byte strings instead of a reader and a writer.
- AppendLog.AOF.WriteCommand: when the file is flushed to disk is not modelled.
- SlotRanges.RangesReadBack: the parsing loop is modelled on values.
- Keyspaces.Keyspace.Get: entries are values in the shard maps instead of shared objects; locks are not modelled.
- `EvictLRU`, `TTL`, `PTTL`, `Keys` and the listing functions of the keyspace.
- `AddNode` and the merging of node lists from text, which do not keep the slot table in agreement.
- XREAD, detailed pending lists, and group and consumer information of streams.
- Hashes, sets, lists, publish and subscribe, access control lists: simple operations on Go maps and slices.
- Lua and Wasm scripting, replication, TLS, HTTP, telemetry, the operator's manifests, and the darwin reactor.
