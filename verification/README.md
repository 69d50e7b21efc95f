# ShugoCore: a Dafny model of its small protocols

A ShugoCore node talks to other nodes, remembers, keeps a log, splits a model over its neighbours
and acts on people's requests. This project models the parts where that rests on a rule that must
hold however events interleave: who leads a mesh, what crosses a socket, which memory survives a
crash, what a log can prove, when a model host may be reloaded, what a header scan finds, who
answered which question, and what may reach an actuator. The rules are stated for all inputs and
all runs, and proved.

Where the original updates state in place, the model is a class with the same fields. Each of its
methods is proved to compute a specification function of the old state, and the results about runs
are lemmas about those functions. Sockets, clocks, processes, peers, the operator and cryptography
answer through parameters. `dafny verify dfyconfig.toml` checks everything.

| Module | Subject |
|---|---|
| `Ranking`, `Election`, `Fleet` | the ranking key, one node's heartbeat table and tick, N nodes over a lossy, duplicating network |
| `JsonText`, `Framing` | why an encoded frame is one line, and both NDJSON receive loops under any fragmentation |
| `Artifacts` | chunked, digest-checked artifact transfer over a link with a frame cap |
| `Sanitize`, `FactSync`, `SyncWire`, `MemoryMesh` | text cleaning, watermark and deduplication sync, the length of its replies, and a fleet that stores and syncs |
| `Episodic` | the ring buffer with its journal, and consolidation with failures and restarts |
| `Subgraph` | the bounded walk over the co-occurrence relation |
| `AuditChain` | append, reopen and verify of the hash chain |
| `LayerPlan`, `ModelHost`, `HostRuns` | the layer planner, the model host's start, watchdog and rebalance, and runs of them |
| `Gguf`, `GgufRoundTrip` | the GGUF header scan, and the encoder it inverts |
| `InteractionBus`, `BusRuns` | presence, turns and questions, and runs of them |
| `GatedExecution` | gate, verdict and dispatch over runs of tasks |
| `Options`, `Common` | what the other modules share |

## What the code does and does not promise

Most of what the documentation promises holds as it stands. Where it does not, the model keeps the
code's behaviour and proves exactly when the promise holds.

- Convergence of the election needs one more thing than fresh advertisements. A frame with the same
  sequence number as the stored entry renews `last_seen` without rewriting the record
  (mesh_election.py:249-255), so a restarted peer whose counter happens to coincide keeps its old
  priority, role and eligibility until its next counter is heard
  (`Fleet.StaleTwinSplitsUntilNextCounter`). `Fleet.RecordFitsIff` says exactly when a record is
  right, `Fleet.FleetConverges` uses that, and `Fleet.FleetConvergesOnCounters` asks only for two
  advertisements with different counters from each node.
- A fetched artifact is staged as its name plus `.part` (agent_runtime.py:765-865). A fetch that
  gets past its checks therefore always loses a staged artifact of that other name
  (`Artifacts.OtherFilesKeptIff`). Success fixes the digest and bounds the size from both sides.
- The requesting side gives up on a reply that passes the frame cap before it is complete
  (agent_runtime.py:1191-1198). An honest artifact transfer is exact however the network cuts its
  replies iff none exceeds the cap by more than a byte (`Artifacts.AlwaysExactIff`): what counts is
  what precedes its last `recv`. From 32 KiB on, the default included, none does
  (`Artifacts.Stager.RoomyCapIsEnough`); up to 21846 bytes the smallest chunk does
  (`Artifacts.SmallCapBreaks`). A sync whose batch encodes to more than the cap and one `recv` never
  advances (`SyncWire.AttemptAdvancesIff`), and 200 facts of 2000 characters outside ASCII are such
  a batch, so a peer holding them is never pulled from (`SyncWire.WideRowsNeverArrive`).
- Sanitising is not idempotent: it changes its own result iff the cap cuts the cleaned text right
  after a space (`Sanitize.IdempotentIff`, `Sanitize.SomeTextIsNotFinal`), and then a pulled copy
  loses that space (`FactSync.CopyIsExactIff`, `FactSync.SomeCopyIsNotExact`).
- The sync watermark moves to the last fact received even when the import is refused
  (`FactSync.RefusedImportKeepsCoveredIff`), and when a batch is cut inside a group of equal time
  stamps, what is left of the group is lost iff its content is neither held nor in the batch
  (`FactSync.SyncKeepsCoveredIff`, `FactSync.TieCutLosesRow`). With rising stamps at the exporter every
  interleaving of stores and syncs converges (`MemoryMesh.RunsConverge`).
- A failed consolidation keeps its batch only until the next compaction of the journal; a restart
  in between saves it (`Episodic.StepLosesNothingIff`, `Episodic.NothingIsLost`,
  `Episodic.FailureWithoutRestartLoses`).
- Verifying an audit file with a key reports an unsigned entry as an error, although the docstring
  says it is skipped (audit.py:427-429 against 453-458). Cutting off the end of a file goes
  unnoticed (`AuditChain.TruncationVerifies`).
- The watchdog reaches an all-local split before it gives up iff the host started with fewer
  devices than it has restarts, or with none (`HostRuns.AllLocalBeforeGivingUpIff`).
- Pins do not add up: the pin set last counts, even where it ends before an earlier one
  (mesh_model_host.py:938-945). A device is held out of a plan exactly while its last pin runs
  (`HostRuns.PinsAreHistory`, `HostRuns.HeldOutIff`).
- The GGUF scan lists float64 among its fixed-width kinds, so the branch that decodes it is never
  reached and such a value is reported as an unsigned integer. It finds a key under an architecture's
  prefix iff the architecture's name has no dot (`GgufRoundTrip.SuffixIsRightIff`).
- The steps of a multi-step decision are gated without the task's attention state. So attention
  guards every consent-gated call of a decision iff it is not a multi-step one with a step of a
  consent-gated type whose arguments the executor takes (`GatedExecution.AttentionHoldsIff`); each
  such wish is refused as a decision and called as a step (`GatedExecution.StepEscapesAttention`).

## Model

| member | source | states |
|---|---|---|
| Ranking.RankIsTotalOrder | mesh_election.py:309-332 | any two ranking keys compare, and are mutually below each other only when equal |
| Ranking.RankTransitive | mesh_election.py:309-332 | the ranking key is transitive, so the least live candidate is unique |
| Ranking.TextIsLexicographic | mesh_election.py:309-332 | ids compare by their first difference, a prefix first |
| Ranking.LeIff | mesh_election.py:309-332 | a primary-capable node ranks before a follower, then the lower priority, then the id that comes first |
| Election.ElectionIsUnique | mesh_election.py:366-416 | a table at a time has exactly one possible winner |
| Election.CandidateIff | mesh_election.py:274-297 | a candidate is a node heard within the timeout, paired, of a thermal status below 3, and with memory left or unreported |
| Election.WinnerIsBest | mesh_election.py:309-332 | the winner beats every other such node by role, then priority, then id |
| Election.HeardOverFields | mesh_election.py:198-268 | what each field of a record is after an advertisement, present, absent or unreadable, and that an equal counter renews the time only |
| Election.HolderLosesLeaseIff | mesh_election.py:386-399 | a holder loses the lease iff it left the live eligible set or somebody outranks it strictly |
| Election.FollowerLeadsIff | mesh_election.py:322-326 | a follower leads iff no primary-capable candidate is live |
| Election.SortOrders | mesh_election.py:366-381 | the sort puts the candidates in rank order and keeps them all |
| Election.MeshElection.constructor | mesh_election.py:149-166 | timeouts are at least a second, a fresh table is empty and nobody leads |
| Election.MeshElection.ObserveHeartbeat | mesh_election.py:198-268 | an advertisement is refused iff it has no name; the table becomes what the recording rule says, duplicates and rollbacks included |
| Election.MeshElection.LocalHeartbeat | mesh_election.py:168-196 | a node advertises itself with the next sequence number and its current claim, and records that itself |
| Election.MeshElection.DropNode | mesh_election.py:270-272 | exactly that node leaves the table |
| Election.MeshElection.LiveCandidates | mesh_election.py:366-381 | exactly the entries heard within the timeout, paired, cool and not known to be out of memory, each once, in rank order |
| Election.MeshElection.Tick | mesh_election.py:383-416 | the candidates are exactly those nodes, and the winner is the best of them whoever held the lease before: the incumbency branch never changes the outcome |
| Election.MeshElection.LivePeers | mesh_election.py:438-453 | exactly the other nodes heard within the timeout |
| Election.LastSeenIsLastHeard | mesh_election.py:240-268 | after any history a peer's `last_seen` is the time its last advertisement was accepted, newer, equal, rolled back or unparsable |
| Election.HeardWithinTimeoutStaysLive | mesh_election.py:438-453 | a peer heard within the timeout is live, through any run of duplicates and restarts |
| Fleet.StepKeepsCoherent | mesh_election.py:198-268 | every step of the network machine keeps tables and claims ranked by their nodes' own settings |
| Fleet.ReachableIsCoherent | mesh_election.py:198-268 | in every reachable state each record shows its node's own rank and each leader was its table's best candidate |
| Fleet.NoDualPrimaryUnderMutualVisibility | mesh_election.py:383-416 | of two nodes that both elected themselves, one was not a live eligible candidate in the other's table |
| Fleet.RecordAgreesIff | mesh_election.py:240-268 | after any advertisements that agree, one table's record agrees iff it did before or one of them had another counter |
| Fleet.RecordFitsIff | mesh_election.py:240-268 | over any part of a run, a live node's record says what the node says now iff it did before or another counter was heard |
| Fleet.FinalRecordFitsIff | mesh_election.py:240-268 | a record ends up right iff the node was heard once when its record was not a stale twin |
| Fleet.TwoCountersRefresh | mesh_election.py:240-268 | hearing a node twice under different counters makes its record right, whatever was remembered |
| Fleet.StaysHeard | mesh_election.py:438-453 | a node that was heard is live in the hearer's table for the whole timeout after it, duplicates, restarts and stale twins included |
| Fleet.TableElectsLeader | mesh_election.py:366-416 | a table that has settled elects the fleet's best node |
| Fleet.FleetConverges | mesh_election.py:366-416 | once every live node has been heard within the timeout and once without a stale twin, and the departed have aged out, every node's next tick names the same node, and only that node leads |
| Fleet.FleetConvergesOnCounters | mesh_election.py:366-416 | the same from any tables, when every live node was heard twice under different counters |
| Fleet.MirrorElectsLeader | mesh_election.py:366-381 | whoever mirrors the live profiles elects the leader, whatever order they were heard in |
| Fleet.StaleTwinSplitsUntilNextCounter | mesh_election.py:249-255 | concrete tables that elect two leaders because of a coinciding sequence number, and agree after the next one |
| JsonText.EscapesArePrintable | agent_runtime.py:71-77 | every escaped code point is printable ASCII, as section 7 of RFC 8259 asks of control characters |
| JsonText.EncodingIsPrintable | agent_runtime.py:71-77 | an encoded value holds no raw newline, so a frame is exactly one line |
| JsonText.TextReadsBackIff | agent_runtime.py:71-77 | an escaped text reads back by the escapes of section 7 of RFC 8259 iff it spells no surrogate pair as two characters |
| JsonText.EscapesAre | agent_runtime.py:71-77 | how each character is written |
| JsonText.DigitsAre | agent_runtime.py:71-77 | a code unit is written in four lower-case hexadecimal digits |
| JsonText.ScalarsEncodeTo | agent_runtime.py:71-77 | how null, truth values, numbers and texts are written |
| JsonText.ArraysEncodeTo | agent_runtime.py:71-77 | how arrays are written, with a comma and a space between items |
| JsonText.ObjectsEncodeTo | agent_runtime.py:71-77 | how objects are written, with a colon and a space after each key |
| Framing.PeerServer.HandleClient | agent_runtime.py:306-345 | a message is dispatched iff some line of the bytes taken, stripped, is 1 to `maxFrame` bytes long, decodes to it and is accepted by the type and token gate, however the bytes were cut into chunks; the connection closes exactly at an overrun; for every stream, hostile ones too, the bytes since the last newline plus the chunk just received stay within the cap (or one `recv`) and one `recv` |
| Framing.PeerServer.DrainLines | agent_runtime.py:325-340 | the inner loop takes every terminated line and keeps what follows the last newline |
| Framing.PeerServer.HandleLine | agent_runtime.py:327-345 | blank, oversized, undecodable and refused lines dispatch nothing; any other line dispatches once |
| Framing.PeerServer.MessagesAre | agent_runtime.py:325-345 | the messages of a stream are exactly what its lines deliver |
| Framing.StripTakesBlanks | agent_runtime.py:327 | stripping takes the six ASCII blanks off both ends and nothing else |
| Framing.PeerServer.StreamYieldsMessages | agent_runtime.py:71-77 | an encoded stream yields the fitting messages, in order |
| Framing.PeerServer.RoundTripUnderFragmentation | agent_runtime.py:306-345 | however the stream is cut, the loop reads to the end and dispatches exactly those messages, unless one overruns the cap |
| Framing.PeerServer.FittingIsAllIff | agent_runtime.py:329-336 | the messages that fit the frame cap are all of them iff each fits |
| Framing.PeerServer.Receive | agent_runtime.py:306-345 | sender and receiver composed: the receiver dispatches exactly the messages sent iff every one fits the frame cap |
| Framing.PeerClient.ReadReply | agent_runtime.py:1189-1201 | the requesting side reads up to a newline, the first empty chunk or the cap, and decodes the first line |
| Framing.PeerClient.Request | agent_runtime.py:1171-1206 | for every way a network may cut the frame, a reply arrives iff what preceded the chunk completing it is within the cap |
| Framing.CutIff | agent_runtime.py:1191-1198 | how much may precede that chunk: exactly what some network can bring about |
| Framing.ArrivalIff | agent_runtime.py:1191-1198 | a reply of a given length arrives over every network iff it exceeds the cap by at most one byte, and over none iff it is longer by more than a whole `recv` |
| Artifacts.TransferIsBounded | agent_runtime.py:808-841 | against any peer a finished transfer is at least the advertised size and at most the cap |
| Artifacts.AcceptedOverFields | agent_runtime.py:815-841 | a reply is taken iff it is for the next offset and the advertised digest and its bytes are some and within the cap |
| Artifacts.ServedOverFields | agent_runtime.py:931-957 | a node serves the bytes from the offset on, at least one and at most its own chunk |
| Artifacts.Stager.AdmissibleOverFields | agent_runtime.py:80-91 | which names, sizes and digests a transfer is started for |
| Artifacts.HonestTransferIsExact | agent_runtime.py:765-865 | composed with an honest peer the loop ends with the file, in exactly the ceiling of size over the smaller chunk, iff each of those replies arrives; otherwise it breaks off |
| Artifacts.AlwaysExactIff | agent_runtime.py:765-865 | an honest transfer is exact over every network iff no encoded reply exceeds the frame cap by more than one byte, and breaks off over every network iff one is longer by more than a whole `recv` |
| Artifacts.SmallCapBreaks | agent_runtime.py:427-429 | under a frame cap of up to 21846 bytes, which the smallest chunk exceeds in base64, every honest transfer of at least one such chunk breaks off over some network |
| Artifacts.Stager.RoomyCapIsEnough | agent_runtime.py:427-429 | as the chunks are set up, a frame cap of 32 KiB or more, the default of 1 MiB included, is never exceeded by more than one byte if the envelope of a reply takes less than a third of it |
| Artifacts.Stager.PullChunks | agent_runtime.py:808-841 | the request loop stops at the first reply it cannot use or does not get, and otherwise appends each chunk in order |
| Artifacts.Stager.FetchArtifact | agent_runtime.py:765-865 | refusal changes nothing, failure leaves the previous file, success means the advertised digest and size; an honest peer's file arrives byte for byte iff every reply does, which over any network they do when none exceeds the frame cap by more than one byte |
| Artifacts.OtherFilesKeptIff | agent_runtime.py:765-865 | other staged files survive iff none is called like the temporary file |
| Sanitize.CleanIsStable | security.py:121-131 | cleaned text has no controls, no invisible characters and no double space, and cleaning it again changes nothing |
| Sanitize.SanitizedShape | security.py:121-131 | sanitised text is within the cap and plain |
| Sanitize.ClassesAre | security.py:121-131 | which code points are controls, invisible, or spaces |
| Sanitize.SpacedIs | security.py:128 | each control character becomes a space |
| Sanitize.VisibleIs | security.py:129 | each invisible character goes |
| Sanitize.CollapseIs | security.py:130 | each space after a space goes |
| Sanitize.StripIs | security.py:131 | stripping takes spaces off both ends and nothing else |
| Sanitize.IdempotentIff | security.py:121-131 | sanitising twice is sanitising once iff the cap does not cut the cleaned text right after a space |
| Sanitize.SomeTextIsNotFinal | security.py:121-131 | for every cap of two or more some text changes the second time |
| FactSync.KeyIsFinal | memory_system.py:662-671 | the key a fact is stored under is the key it is looked up by |
| FactSync.ClipIs | memory_system.py:367-400 | contents are sanitised to 2000 characters at the store and again at the import |
| FactSync.ImportIsUnion | memory_system.py:1443-1484 | an import adds exactly one row for each new content, none for one already held, and the three counters add up to the batch |
| FactSync.ImportCounts | memory_system.py:1443-1484 | skipped counts the elements without a text, duplicates those whose content is held or was offered before in the batch, and the others are the rows added, each with its time |
| FactSync.SyncOverFields | agent_runtime.py:1237-1275 | a sync offers up to 200 rows after the watermark to the store and moves the watermark to the last of them |
| FactSync.PendingMembers | memory_system.py:636-661 | the exported rows are exactly those newer than the watermark, oldest first |
| FactSync.ExportOverFields | memory_system.py:636-661 | an export is the start of the pending rows, 1 to 1000 as asked for, 200 for a sync |
| FactSync.SyncKeepsCoveredIff | agent_runtime.py:1237-1275 | a sync keeps everything below the watermark held iff every row left behind under the batch's last stamp is held already or in the batch by content |
| FactSync.TieCutLosesRow | memory_system.py:636-661 | 201 facts of one second: the last is never delivered, however often the peer syncs |
| FactSync.StoreKeepsCoveredIff | memory_system.py:367-400 | a store at the exporter keeps the puller covered iff its stamp is above the watermark or its content is held |
| FactSync.RefusedImportKeepsCoveredIff | agent_runtime.py:1255-1275 | a refused import keeps the puller covered iff the rows up to the batch's last stamp were held already |
| FactSync.QuietMeansAllHeldIffCovered | agent_runtime.py:1237-1275 | when a sync transfers nothing, the puller holds everything iff it was covered |
| FactSync.RoundsDrainPending | agent_runtime.py:1237-1275 | each bounded sync takes its limit off what is pending |
| FactSync.RepeatedSyncsConverge | agent_runtime.py:1237-1275 | from a covered puller, with distinct stamps, enough completed syncs bring all the exporter's content |
| FactSync.QuietSyncChangesNothing | agent_runtime.py:1237-1275 | after that further syncs transfer and change nothing |
| FactSync.CopyIsExactIff | memory_system.py:1443-1484 | a pulled copy equals the original iff the exporter's cap did not cut the text right after a space |
| FactSync.SomeCopyIsNotExact | memory_system.py:1443-1484 | and some content is cut there |
| SyncWire.AttemptAdvancesIff | agent_runtime.py:1237-1272 | while rows are pending, an attempt moves the watermark over every network iff the encoded batch exceeds the cap by at most one byte, and moves nothing over every network iff it is longer by more than a whole `recv` |
| SyncWire.PossibleIff | agent_runtime.py:1191-1198 | the attempts considered are exactly those in which some network cuts the framed reply that way |
| SyncWire.AttemptsConverge | agent_runtime.py:1237-1272 | attempts bring everything once enough of them arrive |
| SyncWire.WideReplyIsTooLong | memory_system.py:1510-1518 | a full batch of wide contents is too long for the default cap, whatever surrounds it |
| SyncWire.WideRowsNeverArrive | agent_runtime.py:1191-1198 | so no number of attempts moves anything |
| MemoryMesh.SemanticMemory.StoreFact | memory_system.py:367-400 | exactly one row is added, with the clipped content |
| MemoryMesh.SemanticMemory.ContentExists | memory_system.py:662-673 | true iff a row has the clipped content |
| MemoryMesh.SemanticMemory.ImportSharedFacts | memory_system.py:1443-1484 | the loop computes the merge; each of the three counters counts what it should, and the new contents are added in order |
| MemoryMesh.AgentRuntime.Sync | agent_runtime.py:1237-1275 | an unreachable peer, a reply cut off by the frame cap or a refusal changes nothing; otherwise store, watermark and counters are those of one sync, and `duplicates` is the number of facts whose content was held or came twice |
| MemoryMesh.PullOverFields | agent_runtime.py:1237-1275 | what a pull does to store and watermark of its node in a fleet, with and without an override |
| MemoryMesh.SyncsNeverDuplicate | memory_system.py:1443-1484 | over any interleaving in a fleet, no content has more rows at a node than its own stores plus one |
| MemoryMesh.ContentHasAnOrigin | memory_system.py:1443-1484 | nothing is held anywhere that was not stored somewhere |
| MemoryMesh.EveryPairIsCovered | agent_runtime.py:1250-1272 | over any interleaving of stores and syncs by any nodes, while a peer's stamps rise, whatever a node's watermark for it has passed is held |
| MemoryMesh.RunsConverge | agent_runtime.py:1237-1275 | after any such run from empty stores, enough further syncs bring everything the peer holds, and then nothing is left to transfer |
| Episodic.EpisodicMemory.constructor | memory_system.py:176-224 | opening replays the journal into ring and counter |
| Episodic.EpisodicMemory.Record | memory_system.py:149-175 | the event joins journal and ring, and the ring sheds by capacity and age |
| Episodic.EpisodicMemory.Drain | memory_system.py:225-242 | the ring is handed over, and the journal is compacted unless a batch is in flight |
| Episodic.EpisodicMemory.MarkConsolidated | memory_system.py:243-264 | the journal becomes what the ring holds |
| Episodic.RecordOverFields | memory_system.py:149-175 | which number the event takes, and which events the ring sheds: those beyond the capacity, and from the front on those that are too old |
| Episodic.ReplayTakesClimbing | memory_system.py:176-224 | whatever the journal holds, replay takes the entries numbered above all before them and counts on from the highest |
| Episodic.RecordKeepsSound | memory_system.py:149-175 | recording keeps the ring a suffix of the journal with rising numbers |
| Episodic.DrainKeepsSound | memory_system.py:225-242 | so does draining |
| Episodic.AcknowledgeKeepsSound | memory_system.py:243-264 | and acknowledging |
| Episodic.ReplayYieldsTail | memory_system.py:176-224 | replay restores exactly the last `max_events` entries and leaves the journal alone |
| Episodic.ReachableIsSound | memory_system.py:149-264 | over every run with failures and restarts, the ring is a suffix of the journal and numbers strictly increase |
| Episodic.StepLosesNothingIff | memory_system.py:225-264 | a step loses a recording iff it compacts the journal while a failed batch waits in it, and then exactly that batch |
| Episodic.NothingIsLost | memory_system.py:1522-1542 | if a failed consolidation is always followed by a restart, every recording is stored, in the journal, or evicted |
| Episodic.FailureWithoutRestartLoses | memory_system.py:225-264 | a concrete run without the restart that loses one |
| Subgraph.QuerySubgraph | memory_system.py:505-573 | the walk ends within the node limit, reports no node twice, each at the length of a real chain within the depth, and covers every chain, with the edges of every entity it expands, unless the limit was reached or some entity had more peers than there was room for when it was expanded; a root with fewer peers than the limit has them all reported |
| Subgraph.ExpandLayer | memory_system.py:530-573 | one layer reports every peer of the frontier at the next distance, with the same two exceptions, and queues the new nodes in order |
| Subgraph.VisitPeers | memory_system.py:545-573 | one expansion adds only peers, all of them if there is room when it starts, queues them in order, and draws an edge only between co-occurring entities |
| Subgraph.LayerIsComplete | memory_system.py:530-573 | a layer whose frontier is fully expanded extends complete coverage by one hop |
| Subgraph.NothingFurther | memory_system.py:530-573 | an empty frontier means that no longer chain leads anywhere new |
| Subgraph.CoverageIsExact | memory_system.py:505-573 | under coverage the nodes are exactly those within the depth, and `hops` is the shortest distance |
| AuditChain.VerifyAuditFile | audit.py:416-475 | a file is accepted iff every line parses and every entry is linked, numbered, hashed and, under a key, signed; the count is the number of entries; an exception leaves it iff some line is JSON but no entry |
| AuditChain.HashDeterminesHistory | audit.py:365-379 | two files that verify and end in the same hash hold the same entries up to signatures, under a key signatures included |
| AuditChain.TamperingIsDetected | audit.py:416-475 | any edit, insertion, reordering or interior deletion that keeps the last entry fails verification |
| AuditChain.TruncationVerifies | audit.py:416-475 | what a truncation leaves verifies on its own |
| AuditChain.Chain.constructor | audit.py:346-362 | reopening adopts the number and hash of the last readable entry |
| AuditChain.Chain.Append | audit.py:364-395 | one linked, hashed and signed entry is added, the memory stays current, and a verifying file keeps verifying |
| AuditChain.AppendVerifies | audit.py:364-395 | appending to a verifying file gives a verifying file, numbered one further |
| AuditChain.WrittenVerifies | audit.py:346-395 | any run of opens and appends verifies, numbered 1 to n, ending in the adopted hash; under a key iff every append used that key |
| AuditChain.WrittenHolds | audit.py:346-395 | and it holds the time, type and payload of every append, in order |
| LayerPlan.UsableHeadroom | mesh_rpc.py:105-118 | never more than measured or advertised, and the reserve stays free |
| LayerPlan.RoomIsLargest | mesh_rpc.py:105-118 | the headroom is the largest that leaves the reserve free |
| LayerPlan.CapacityOverFields | mesh_rpc.py:252-276 | a device holds as many layers as fit its headroom, cache for every slot included, and none if unnamed, unpaired or too hot |
| LayerPlan.SurveyOverFields | mesh_rpc.py:252-276 | with distinct names, why each device is passed over and what is measured of the others |
| LayerPlan.Budget | mesh_rpc.py:238-250 | what may leave the host plus the layers kept is the whole model |
| LayerPlan.PlanLayerSplit | mesh_rpc.py:205-294 | the two loops compute the specified plan |
| LayerPlan.RankedIsSorted | mesh_rpc.py:277-279 | the ranking keeps the candidates and orders them by headroom, then name |
| LayerPlan.PlanIsSafe | mesh_rpc.py:277-294 | no device gets more than it can hold, no more than the budget leaves, and every layer is somewhere |
| LayerPlan.PlanIsMaximal | mesh_rpc.py:277-294 | with distinct names as many layers leave as budget and devices allow |
| LayerPlan.FullBeforeNext | mesh_rpc.py:277-289 | a device is used only once every device ranked before it is full |
| LayerPlan.RoomiestFirst | mesh_rpc.py:277-289 | and what ranks before is more headroom, then the name that comes first |
| LayerPlan.SplitDifference | mesh_model_host.py:185-201 | something changed iff the splits differ, with the exact detaches, attaches, resizes and layer delta |
| LayerPlan.DegradeSplit | mesh_model_host.py:204-224 | exactly one device goes, the one with the least measured headroom, and its layers with it |
| LayerPlan.WeakestIsUnique | mesh_model_host.py:220-221 | which device that is, is determined |
| LayerPlan.WeakestOverFields | mesh_model_host.py:220-221 | least headroom, an unmeasured device counting as none, then the first name |
| ModelHost.MeshModelHost.constructor | mesh_model_host.py:355-426 | the layer count is the operator's, else the file's, else the default; limits are clamped |
| ModelHost.MeshModelHost.ApplyPins | mesh_model_host.py:947-965 | a pin is kept iff its time is still to come, and a planned device stays iff no such pin holds it out |
| ModelHost.MeshModelHost.PlanForFleet | mesh_model_host.py:133-182 | excluded peers are planned without and reported |
| ModelHost.MeshModelHost.Start | mesh_model_host.py:519-647 | the state after a start, for every outcome of waiting, waking, launching and verifying |
| ModelHost.MeshModelHost.WakePeripherals | mesh_model_host.py:551-571 | the devices without an address or an answer leave the assignments, the others are started, and the silent ones are pinned |
| ModelHost.MeshModelHost.Relaunch | mesh_model_host.py:812-840 | one relaunch of exactly this split, counted as a failure unless it comes up healthy |
| ModelHost.MeshModelHost.Stop | mesh_model_host.py:649-665 | everything but the pins and the relaunch history is forgotten |
| ModelHost.MeshModelHost.Reconcile | mesh_model_host.py:704-810 | the state and the action after a check, for every answer of watchdog, plan, counter, cooldown and pre-flight |
| ModelHost.MeshModelHost.Compare | mesh_model_host.py:732-745 | the stability counter counts successive sightings of one desired split |
| ModelHost.MeshModelHost.RestartProven | mesh_model_host.py:754-770 | new devices are asked first; the silent ones are pinned and the split planned again without them |
| HostRuns.PlannedIsSafe | mesh_model_host.py:500-516 | a plan with pins and exclusions still conserves layers, within the budget, and offers no pinned or excluded device |
| HostRuns.OfferedIff | mesh_model_host.py:133-182 | planned for are exactly the named peers that are not excluded, by measured memory |
| HostRuns.LeftOutOverFields | mesh_model_host.py:947-965 | pinned and excluded devices are left out and reported as such |
| HostRuns.HotIff | mesh_model_host.py:930-936 | a plan calls a device hot iff it is paired and its thermal status refuses |
| HostRuns.PinsAreHistory | mesh_model_host.py:930-959 | over any run, the pins remembered are the last ones set, for heat or for silence, that have not run out |
| HostRuns.HeldOutIff | mesh_model_host.py:947-965 | a device the planner would use is left out of a plan iff the last pin of the run has not run out |
| HostRuns.WantedIffNotHeldOut | mesh_model_host.py:726-735 | and so for what a check wants |
| HostRuns.WantedOverFields | mesh_model_host.py:519-550 | which split a start asks for, with or without the settling wait |
| HostRuns.StartOverFields | mesh_model_host.py:551-647 | which devices serve after a start, what the mode is and what was found to work |
| HostRuns.WatchdogOverFields | mesh_model_host.py:704-810 | what a check does with a model that is not serving, for every answer |
| HostRuns.RebalanceOverFields | mesh_model_host.py:726-770 | what a check does with one that is serving, for every answer |
| HostRuns.RelaunchOverFields | mesh_model_host.py:812-840 | a relaunch is stamped, counted, and a failure unless it comes up |
| HostRuns.StopOverFields | mesh_model_host.py:649-665 | what a stop forgets and what it keeps |
| HostRuns.StartConserves | mesh_model_host.py:548-611 | a start leaves remote plus local equal to the total, on devices that answered |
| HostRuns.ReachableConserves | mesh_model_host.py:519-647 | in every reachable state the layers add up and the started devices are exactly the assigned ones |
| HostRuns.RebalancesAreSpaced | mesh_model_host.py:750-753 | an unforced rebalance comes at least the cooldown after every earlier restart |
| HostRuns.CounterIsHistory | mesh_model_host.py:737-745 | the stability counter equals a fact about the run's comparisons |
| HostRuns.RebalancesAreStable | mesh_model_host.py:741-749 | an unforced rebalance follows the required number of successive comparisons that wanted the same split |
| HostRuns.DeadCheck | mesh_model_host.py:772-810 | what a check does that finds the model not serving and cannot help it |
| HostRuns.WatchdogTerminates | mesh_model_host.py:772-849 | while nothing helps there are exactly as many relaunches as are still allowed, then the host gives up |
| HostRuns.GivingUpIsFinal | mesh_model_host.py:720-724 | after that nothing is relaunched or changed, whatever later checks find |
| HostRuns.OneDeviceAtATime | mesh_model_host.py:802-810 | the first restart keeps the split and each later one gives up one device |
| HostRuns.StepDown | mesh_model_host.py:802-810 | which device: the one with the least measured headroom |
| HostRuns.AllLocalBeforeGivingUpIff | mesh_model_host.py:802-810 | an all-local split is tried before giving up iff there were fewer devices than restarts, or none |
| Gguf.LittleEndianRoundTrip | gguf_meta.py:228-233 | reading little-endian bytes gives back the number written |
| Gguf.Reader.ReadString | gguf_meta.py:169-181 | empty, oversized, truncated and whole strings, and where each leaves the cursor |
| Gguf.Reader.ItemSize | gguf_meta.py:148-166 | what an array item is counted as, and where it leaves the cursor |
| Gguf.Reader.ReadValue | gguf_meta.py:184-225 | every kind of value, its count of bytes and the cursor, or the stop at a long array |
| Gguf.Reader.Parse | gguf_meta.py:109-145 | the scan computes the specified metadata, within the byte and pair limits |
| Gguf.WordOverBytes | gguf_meta.py:169-181 | when a text is read and where the cursor stands after it |
| Gguf.BrokenValueIsNothing | gguf_meta.py:184-225 | what a value that breaks off is reported and counted as |
| Gguf.ItemsOverBytes | gguf_meta.py:148-166 | an array is walked until an item cannot be read |
| Gguf.ScanStopsAtName | gguf_meta.py:123-129 | a name that cannot be read or passes the byte limit ends the scan |
| Gguf.RefusedFiles | gguf_meta.py:109-121 | which files are refused outright |
| Gguf.ArchitectureIs | gguf_meta.py:135-136 | the architecture is what Python prints of the value, or nothing for a false one |
| GgufRoundTrip.FieldReadsBack | gguf_meta.py:184-225 | reading an encoded field gives its value, leaves the cursor on the next byte and counts exactly the bytes it takes |
| GgufRoundTrip.StepReadsBack | gguf_meta.py:123-142 | after every pair the cursor stands exactly on the next key |
| GgufRoundTrip.SuffixIsRightIff | gguf_meta.py:137-140 | splitting at the first dot finds the key iff the architecture's name has no dot |
| GgufRoundTrip.EnoughIsShortest | gguf_meta.py:141-142 | the stopping prefix is the shortest that states everything needed |
| GgufRoundTrip.ScanInvertsEncoder | gguf_meta.py:109-145 | the scan returns the wanted keys of the shortest prefix with all needed keys, whatever follows it, or of the whole list |
| GgufRoundTrip.GeometryReports | gguf_meta.py:131-145 | a header that states one architecture without a dot yields it, and each of the seven keys stated after it under its prefix, with the value stated last |
| GgufRoundTrip.CompleteIff | gguf_meta.py:141-142 | the scan has enough iff all four needed keys are stated |
| GgufRoundTrip.ScanReports | gguf_meta.py:109-145 | so the scan of such a file reports exactly what is stated up to the first pair by which those four are, by the names in the file |
| GgufRoundTrip.LongArrayEndsScan | gguf_meta.py:98-105 | an array too long to walk ends the scan with what stood before it |
| InteractionBus.HumanBus.Publish | human_interaction.py:293-390 | a refused observation is only counted; an accepted one gives the specified transition, entry and bus |
| InteractionBus.HumanBus.Hear | human_interaction.py:324-356 | words open or continue a turn, answer a fresh question and clear any question |
| InteractionBus.HumanBus.MovePresence | human_interaction.py:362-379 | presence moves only outside the debounce, and a return opens a new conversation |
| InteractionBus.HumanBus.RecordAgentResponse | human_interaction.py:399-433 | speech ends the turn and may ask; other responses are only counted |
| InteractionBus.HumanBus.ExpectAnswer | human_interaction.py:435-447 | a non-empty question becomes the pending one |
| InteractionBus.HumanBus.DrainConversationEvents | human_interaction.py:449-457 | all completed round trips, oldest first, and none left |
| BusRuns.PresenceComesAndGoes | human_interaction.py:362-379 | presence events form PRESENT (LEFT RETURNED)* with an optional last LEFT, no two in a row within the debounce, however the clock moves, and every return opens a conversation |
| BusRuns.PresenceOverFields | human_interaction.py:303-379 | presence moves iff an observation says otherwise than remembered, outside 1.5 seconds; everything but an explicit absence says that somebody is there |
| BusRuns.WordsOverFields | human_interaction.py:324-356 | what words do to turn, question, round trips, memory and buffer |
| BusRuns.SilenceOverFields | human_interaction.py:324-356 | an observation without words leaves all that alone |
| BusRuns.MoveOverFields | human_interaction.py:362-379 | what each move does to presence and conversation |
| BusRuns.AgentOverFields | human_interaction.py:399-447 | what the agent's speech and announced questions do |
| BusRuns.CountersAreHistory | human_interaction.py:293-433 | the counters are the numbers of events of the run |
| BusRuns.PendingIsHistory | human_interaction.py:334-352 | the pending question is the run's latest question since words were last heard |
| BusRuns.AnswersIff | human_interaction.py:334-352 | words are taken as an answer iff they are the first after the latest question, within 120 seconds of it |
| BusRuns.PairingIsOneToOne | human_interaction.py:334-352 | no question is answered twice and no words answer two questions |
| BusRuns.EventsAreTrips | human_interaction.py:343-351 | the bus holds the last eight round trips completed since the last drain |
| BusRuns.TurnsSeparate | human_interaction.py:325-330 | two utterances share a turn iff the agent has not spoken and the user not come back between them, and turns are never reused |
| GatedExecution.DecisionEngine.GateDecision | decision_engine.py:1274-1311 | the verdict for every answer of invariants, mode, attention, consent and approval, and for an action type that cannot be looked up |
| GatedExecution.DecisionEngine.ExecuteGated | decision_engine.py:1314-1328 | one traced, sealed decision is executed |
| GatedExecution.DecisionEngine.ExecuteMultiStep | decision_engine.py:1330-1360 | every step is gated on its own, invalid steps are skipped, and a raised interlock stops the rest |
| GatedExecution.DecisionEngine.ExecuteTask | decision_engine.py:1158-1272 | a proposal that becomes the decision takes a number (line 684); a task without an action does nothing more, a multi-step one is expanded, any other is gated and executed |
| GatedExecution.GateOverFields | decision_engine.py:1274-1311 | a consent-gated action needs a safe mode, a grant, an approval and the attention state "attending" or "unknown" (or none); what the gate raises on |
| GatedExecution.HandledOverFields | decision_engine.py:1240-1272 | what each verdict leads to: nothing, an abort, or an execution under the next number if the budget allows |
| GatedExecution.TaskOverFields | decision_engine.py:1158-1272 | which tasks are gated at all, and which as steps |
| GatedExecution.ExecuteOverFields | execution_layer.py:103-127 | executed is exactly content whose verdict says allow and carries its hash |
| GatedExecution.DispatchOverFields | execution_layer.py:129-331 | which executor takes a decision, by its action type and arguments |
| GatedExecution.NoArgumentsNoCall | execution_layer.py:262-331 | arguments that are no dictionary reach no built-in executor |
| GatedExecution.StepsOverFields | decision_engine.py:1330-1350 | what counts as a step |
| GatedExecution.SubDecisionOverFields | decision_engine.py:1350-1356 | what a step becomes, key by key |
| GatedExecution.TraceOverFields | decision_engine.py:1314-1328 | what the trace adds |
| GatedExecution.VerdictMatchesIff | execution_layer.py:103-118 | the sealed verdict fits the content that is checked, as long as the decision brings no verdict key of its own; the engine builds none that does |
| GatedExecution.ExecutedIsCleared | execution_layer.py:103-182 | what reaches a handler after an allowed gate is the gated content plus its trace |
| GatedExecution.DispatchEqualsGate | decision_engine.py:1240-1360 | over every run of tasks each call follows its own allowed gate with the same content, consent-gated types had grant, approval and no safe state, and no multi-step decision is called |
| GatedExecution.CallsAreNumbered | decision_engine.py:1314-1328 | over every run of tasks no two calls carry the same execution number, and later ones carry higher ones |
| GatedExecution.DirectCallIsAttended | decision_engine.py:1286-1300 | a decision gated on its own reaches a consent-gated handler only under an allowing attention state |
| GatedExecution.AttentionHoldsIff | decision_engine.py:1274-1356 | for every attention state and every answer of the collaborators each consent-gated call is attended, iff the decision is not a multi-step one with a step, before any that raises, of a consent-gated type that nothing forbids and whose arguments the executor takes |
| GatedExecution.StepEscapesAttention | decision_engine.py:1350-1356 | for every wish of a consent-gated type whose arguments an executor takes and every refusing attention state, the wish is refused as a decision and called as a step |
| GatedExecution.EmptyWishIsNotExecuted | execution_layer.py:262-324 | a call without an address and an update without a statement reach no executor, as a decision or as a step |

## Left out

- Sockets, threads, locks, subprocesses, HTTP, TLS and SQLite are not modelled: each method runs to its end with nothing in between, and what the outside world answers, failing included, is a parameter. File-system errors are left out where no parameter names them.
- Election.MeshElection.Tick: reports nothing about disagreements; `_note_disagreement` and the audit calls only log.
- Election.MeshElection.ObserveHeartbeat: names and roles are taken as already stripped and lower-cased, and integer fields that overflow (an infinite float) are not modelled.
- Framing.PeerClient.ReadReply: a time-out counts as the peer closing.
- Framing.PeerServer.HandleLine: UTF-8 decoding, `json.loads` and the type and token gate are two uninterpreted functions, required only to invert the encoder and to accept what was sent.
- Artifacts.Stager.FetchArtifact: the base64 alphabet is not modelled, only its length, and SHA-256 is an uninterpreted function (nothing proved there needs it to be injective).
- MemoryMesh.AgentRuntime.Sync: the members of a reply other than the contents are parameters, and so is how far the reply had come before its last chunk; the conflict notes and their storm guard, statistics and receipts only log.
- Subgraph.QuerySubgraph: a peer query is any answer with at most its limit of distinct peers, all of them when they fit; the order SQL gives them and the fact that links two entities are not modelled.
- Episodic.EpisodicMemory.constructor: a line torn by a crash in the middle of a write is not modelled, and read-only agents, which drop drained events by design, are left out.
- AuditChain.VerifyAuditFile: an entry without a number or a hash, or whose number is a list or an object, is not modelled; SHA-256 and HMAC are collision-free functions of what they cover, payloads are JSON-stable, and a missing or unreadable file is not modelled.
- ModelHost.MeshModelHost.Start: the clock is read once for all pins of one start, reasons, llama.cpp arguments and audit records are not modelled, and the bounded settling wait is one later look at the fleet.
- ModelHost.MeshModelHost.Reconcile: the lists of unreachable and skipped devices it reports on a hold are not modelled.
- Gguf.Reader.Parse: text is kept as its bytes, so the byte count of a name that is not ASCII differs from the code's count of characters; single-precision values keep their bits.
- InteractionBus.HumanBus.Publish: round-trip times are exact where the code rounds them to two decimals, validation, sanitising and the random conversation identifiers are abstract (a counter stands for a fresh identifier), and listeners are left out.
- GatedExecution.DecisionEngine.ExecuteTask: model calls, memory records, results and reinforcement learning are left out; policy, consent, approval, mode and budget answer through parameters; of the exceptions raised inside the policy check or the approval service only the look-up of an unhashable action type is modelled. What the operator allows (addresses, methods, statements, actuator commands, the news key) is one uninterpreted function; a call that it passes counts as made even if a rate limit or an open circuit breaker then stops it. The canonical hash is collision-free, and no value but a text prints like a consent-gated action type.
- Decay of salience, the scratchpad, attention smoothing and the fallback controller are not modelled.
- Delegation, capability tables, onboarding, accelerators and the Android side are not modelled: small adapters whose behaviour is one branch or one loop.
- Similarity search, entity extraction, prompts, personas, logging, simulation and robot adapters are not modelled: what they compute is numeric, textual or outside the process.
