# Verification of the StellMap registry

StellMap is a replicated service registry. Around a Raft library it keeps its own segmented write-ahead log, snapshot
files, a Pebble key-value state machine, a watch stream and a directory that is copied between regions. This project
models that code in Dafny and proves what it promises across crashes, concurrent subscribers, broken streams and
interleaved uploads. `dafny verify dfyconfig.toml` checks everything.

## Reading order

- **Overwrite algebra** (`overwrite.dfy`). `put`, `delete` and `delete_prefix` overwrite, so what a key holds depends
  only on the last command that touches it. `Covers(log, content, i, n)` says that a content labelled `i` is brought to
  the true state at `n` by the log above `i`. Everything below reuses it.
- **Node durability** (`nodemachine.dfy`, `raftnode.dfy`, `retention.dfy`). `NodeMachine` is a state machine whose
  steps are the single durable writes of a node (one WAL append, one store apply, one applied-index write, one
  snapshot, one WAL truncation, the steps of recovery itself) and the crash. `RaftNode` is the code: its methods
  change the fields and record each durable write as one enabled step, so every theorem about runs holds for a crash
  at any point inside a method. `Retention` bounds what the WAL keeps over whole runs of the process.
- **Segmented log** (`rafttypes.dfy`, `walfiles.dfy`, `wal.dfy`). `FileWAL` over a directory that maps segment numbers to
  records, `MemoryWAL` over a flat list, and when the two agree.
- **Watch** (`registrymodel.dfy`, `watchprotocol.dfy`, `watchhub.dfy`, `watchview.dfy`, `watchconvergence.dfy`,
  `publisher.dfy`). The hub as a concurrent protocol and as the class that runs it, the handlers' loops, and the theorem
  that a client arrives at the filtered registry.
- **Replication** (`replicakeys.dfy`, `replica.dfy`). The consumer that turns frames into proposals and a checkpoint.
- **Snapshots** (`snapshotstore.dfy`, `chunktransfer.dfy`). Snapshot files step by step; chunked upload sessions.
- **Reads and stores** (`readbarrier.dfy`, `scans.dfy`, `stores.dfy`, `cleanup.dfy`). The read barrier, the two state
  machines, background paging.
- **Selectors** (`text.dfy`, `selector.dfy`). The label selector parser and its round trip.

## What the code does not meet

Where a promise fails, the code is modelled as it is. Each entry names a lemma with a failing case and a lemma that says
exactly when the promise holds.

- `FileWAL.Append` drops incoming entries below the first retained one, and `MemoryWAL.Append` forgets a stored hard state
  when given an empty one (`Wal.AppendsDisagree`, `Wal.AppendAgreesIff`). `RaftNodes.FileWalIsEnough` proves that no legal
  node run gets there.
- The WAL is meant to hold at most SnapshotEntries + CompactRetainEntries applied entries. After a crash between a
  snapshot and the truncation behind it a restarted node can hold 2 * SnapshotEntries + CompactRetainEntries until its
  next snapshot (`Retention.BoundBreaks`: 144 instead of 80 with the default limits, `Retention.BoundIff`).
- A snapshot is meant to leave the last CompactRetainEntries log entries. As long as the applied index does not exceed
  that number the log is cut right at the snapshot instead (`Retention.TailLost`, `Retention.KeepsTailIff`), which takes
  limits that retain at least as much as triggers a snapshot (`Retention.KeepsTailByDefault`).
- A replication snapshot that breaks off after its clearing proposal keeps the old checkpoint, so instances that do not
  change again are lost until the next snapshot (`Replica.TornSnapshotLoses`, `Replica.TornSnapshotIff`).
- A proposal that raft has accepted can still be lost when the leader changes. If the checkpoint write behind it goes
  through, nothing brings it back. For a change frame the replica misses the change until that instance changes again
  (`Replica.LostWriteLoses`, `Replica.LostWriteIff`). For a snapshot frame, whichever of its proposals are lost, it misses
  exactly what it then holds differently from the snapshot, until that is touched (`Replica.LostPutLoses`,
  `Replica.LostProposalsIff`, and for a single put or the clearing proposal `Replica.LostPutIff`, `Replica.LostClearIff`).
- Left-over bytes of an aborted upload make every later upload of the same snapshot fail
  (`ChunkTransfer.LeftoverBlocksUpload`, `ChunkTransfer.InOrderInstallsIff`).
- Two concurrent reads of one key share their context; the timeout of one makes the other return index 0
  (`ReadBarrier.CollidingContexts`, `ReadBarrier.AskSafelyIff`).
- The set forms of a selector look for `in` in the lowered text and cut the original one there. A key that gets shorter
  or more than one byte longer when it is lowered, which only happens beyond ASCII, does not parse back; some of them make
  the parser slice out of range (`Selector.WideKeyFails`, `Selector.SelectorRoundTripIff`).
- The interval from a prefix to the prefix followed by 0xFF misses keys that continue with 0xFF
  (`Stores.TopByteSurvives`, `Bytes.PrefixRangeExact`, `Stores.ApplyAgreesIff`).
- An instance whose identifiers hold a slash is stored but never announced to watchers (`WatchConvergence.SlashUnannounced`,
  `WatchConvergence.AnnouncedIff`).
- Replicated keys of a cluster called `registry` are not read back (`ReplicaKeys.RegistryClusterUnread`,
  `ReplicaKeys.ReplicatedKeyRoundTrip`).
- `docs/modules/registry.md:92-95` promises that `servicePrefix` matches the name itself or what follows it after a dot;
  `internal/registry/model.go:550` also matches any name that merely starts with the text
  (`RegistryModel.PrefixMatchesSibling`, `RegistryModel.ServicePrefixIff`, `RegistryModel.ServiceQueryIff`).

## Assumptions

- Raft's side of a Ready is `NodeMachine.AppendContract` and `RaftNodes.ReadyContract`: entries are contiguous, start above
  the durable commit and leave no gap; the commit index does not move back; committed entries come in order, never above
  the commit index, and are not withheld while some are outstanding. After a restart they come again from the newest
  snapshot on, because `internal/raftnode/node.go:736-745` leaves the applied index unset.
- Log commands do not touch keys under `__meta__/`, so the business data and the applied index can be kept apart.
- Registry commands are careful (`WatchConvergence.Careful`): every value put under `/registry/` decodes and names its own
  key, has a trimmed service name and no byte 0xFF, and no `delete_prefix` reaches into `/registry/`. The handlers write
  nothing else as long as no identifier holds a slash. `Replica.PlainLog` asks in addition that identifiers have nothing
  to trim.
- Raft confirms no read below the commit a process restarted with, since a leader first commits an entry of its own term;
  and the status index that lets a read through is where the batches handled so far end, so the process has handled the
  first batch that raft delivers again (`ReadBarrier.LinearizableRead`).
- `strings.ToLower` works character by character, lowers ASCII as usual and makes no blanks (`Selector.Lowering`).
- Nothing published before a subscription is newer than the mark its snapshot is given
  (`WatchConvergence.SnapshotStreamConverges`, `WatchConvergence.WatchConverges`): `handleReady` applies a batch and updates
  the status the mark is read from before it emits the batch (`internal/raftnode/node.go:622-626`).
- Two senders' snapshots of one term and index have the same bytes, as the chunk sessions take for granted: a session is
  named by term and index alone.
- A proposal accepted by `ProposeCommand` takes effect, in order, except where `Replica.LostWriteIff` and
  `Replica.LostProposalsIff` say otherwise; and
  one consumer at a time serves a service, although leadership is only checked between streams
  (`internal/app/replication.go:97-128`).
- One `wal.Append` is one durable step, although it writes the hard state before the entries.
- JSON, protobuf and SHA-256 are decoding functions given as parameters; a value that does not decode is `None`.

## Model

| member | source | states |
|---|---|---|
| Overwrite.FoldAtKey | internal/storage/pebble.go:127-165 | after any command log an untouched key holds what it held, and a touched key no longer depends on the state it started from |
| Overwrite.ApplyAt | internal/storage/pebble.go:127-165 | key by key: a put stores its value, a delete removes its key, a range delete removes what has the prefix unless it goes on with byte 0xFF, and nothing else changes |
| Overwrite.CoversIff | internal/storage/pebble.go:127-165 | a content may stand for the log below its label exactly when it is right on every key that the replay above the label does not touch |
| Overwrite.CoversDown | internal/storage/pebble.go:127-165 | replaying commands that a content already holds does no harm |
| Overwrite.ReplayLaw | internal/storage/state_machine.go:75-103 | for any i <= j <= n, folding commands i+1..n onto the state after j gives the state after n |
| NodeMachine.CrashKeepsInv | internal/raftnode/node.go:900-965 | whatever the node was doing, the store left by a crash can be replayed onto from the start of the log |
| NodeMachine.ApplyKeepsInv | internal/raftnode/node.go:664-708 | applying a committed entry, delivered for the first time or again, keeps index order and the meaning of the store |
| NodeMachine.AppendKeepsInv | internal/raftnode/node.go:613-621 | persisting a Ready keeps index order, contiguity and agreement of the WAL with the committed log |
| NodeMachine.SnapshotKeepsInv | internal/raftnode/node.go:1002-1027 | a snapshot of the store, also in the middle of redelivery, stands for the log above its label |
| NodeMachine.DropPrefixKeepsInv | internal/raftnode/node.go:1029-1047 | truncating the WAL at or below the newest snapshot leaves no hole |
| NodeMachine.RunKeepsInv | internal/raftnode/node.go:601-628 | the invariant holds after every legal run of durable steps and crashes |
| NodeMachine.RecoverIsCommitted | internal/raftnode/node.go:939-960 | newest snapshot plus the durable committed WAL tail is the committed state |
| NodeMachine.EntriesCarry | internal/raftnode/node.go:690-694 | a normal entry with data that decodes carries that command; a configuration change, an entry without data and one that does not decode carry none |
| NodeMachine.RecoveredContent | internal/raftnode/node.go:944-959 | recovery folds what the data of the WAL entries between snapshot and durable commit decodes to, in index order, onto the newest snapshot, or onto the stored data if there is none |
| NodeMachine.CrashRecovery | internal/raftnode/node.go:601-628 | a run stopped between any two durable steps, recovery's own included, recovers to the committed log folded up to the durable commit, which is at least every index that ever reached the store |
| NodeMachine.Redelivery | internal/raftnode/node.go:736-745 | once the restart commit has been passed again the store is the true state; before that the log above its position still makes it right for every later index |
| NodeMachine.NewestSnapshotCovers | internal/raftnode/node.go:988-1027 | the newest snapshot, also one taken in the middle of redelivery with content newer than its label, plus the log above the label gives the true state for every index from the label and the restart commit it was taken under, whichever is larger |
| NodeMachine.IndexOrder | internal/raftnode/node.go:613-628 | snapshot index <= applied <= durable commit <= last WAL index, no hole between snapshot and WAL, and the next entries never start below the first retained one |
| RaftNodes.RaftNode.constructor | internal/raftnode/node.go:334-368 | a process starts over whatever disk a legal run, stopped anywhere, left behind, in the state recovery expects |
| RaftNodes.RaftNode.BootstrapStorage | internal/raftnode/node.go:900-965 | recovery leaves the store equal to Recover of the disk, positioned at the durable commit, with every durable write of the way a legal step; a node is fresh only if nothing was ever written |
| RaftNodes.RaftNode.LoadSnapshot | internal/raftnode/node.go:902-926 | the newest snapshot becomes store content, applied index and in-memory snapshot |
| RaftNodes.RaftNode.ReplayTail | internal/raftnode/node.go:944-959 | the replay loop applies exactly the WAL entries between snapshot and durable commit, each as what its data decodes to and all others as nothing |
| RaftNodes.RaftNode.Persist | internal/raftnode/node.go:613-621 | log and hard state are written before anything is applied, and nothing else changes; the WAL then holds the incoming entries and the old ones below them |
| RaftNodes.RaftNode.HandleReady | internal/raftnode/node.go:601-628 | WAL, hard state unless the incoming one is empty, store, snapshot and status after one Ready: the store has the commands that the committed entries decode to folded in, and other entries leave it as it was; between two Readys the applied index, status and store agree |
| RaftNodes.RestartAndServe | internal/raftnode/node.go:334-628 | process start, recovery from the disk of any legal run and any number of Readys compose into one legal run that ends where the specification says |
| Retention.ServedOrder | internal/raftnode/node.go:988-1053 | over any number of Readys the snapshot index and the first index in memory do not move back, and only a snapshot moves the start of the WAL |
| Retention.BoundHolds | internal/raftnode/node.go:988-1053 | a process that starts over the disk any legal run left, and comes up with a WAL near its newest snapshot or has truncated it since, holds at most SnapshotEntries + CompactRetainEntries applied entries after every Ready |
| Retention.BoundIff | internal/raftnode/node.go:988-1053 | one entry before the first snapshot of such a process the bound holds exactly when the WAL it came up with starts at most CompactRetainEntries below the newest snapshot |
| Retention.CrashBeforeTruncation | internal/raftnode/node.go:1012-1047 | a legal run that stops between a snapshot and its truncation, for any limits with fewer retained entries than trigger a snapshot |
| Retention.BoundBreaks | internal/raftnode/node.go:988-1053 | the failing case: after that crash a restarted node holds 2 * SnapshotEntries + CompactRetainEntries applied entries |
| Retention.SnapshotIsStore | internal/raftnode/node.go:988-1027 | a snapshot is taken exactly when SnapshotEntries entries were applied since the last one, and holds the store's data at the applied index |
| Retention.KeepsTailIff | internal/raftnode/node.go:1029-1047 | a snapshot leaves the last CompactRetainEntries entries up to it, as far as they were there, unless the applied index does not exceed that number yet and older entries exist |
| Retention.KeepsTailByDefault | internal/raftnode/config.go:16-17 | with less retained than triggers a snapshot it always does |
| Retention.TailLost | internal/raftnode/node.go:1034-1037 | the failing case: a snapshot every 2 entries with 16 to be retained leaves one entry |
| RaftNodes.RaftNode.ApplyCommittedEntries | internal/raftnode/node.go:664-708 | what the entries of the batch decode to is folded onto the store in order, other entries do nothing, and the applied index is written once, at the end |
| RaftNodes.RaftNode.MaybeTriggerSnapshot | internal/raftnode/node.go:988-1053 | below the threshold nothing changes; otherwise the snapshot is the store at the applied index and the WAL is cut at the compaction index unless memory was compacted further |
| RaftNodes.FileWalIsEnough | internal/wal/wal.go:140-178 | a Ready met in any legal node run is appended by FileWAL without a rejected gap, a lost entry or a lost hard state |
| RaftNodes.StartAfterKeep | internal/raftnode/node.go:1029-1047 | after a truncation the WAL starts at the compaction index or where it started before |
| RaftTypes.KeepIsSlice | internal/wal/memory.go:80-97 | on a contiguous log the filters of truncation and tail rewrite cut at one position |
| RaftTypes.KeepMembers | internal/wal/memory.go:80-97 | truncation keeps exactly the entries at or above the index, the tail rewrite those below |
| RaftTypes.MergeMembers | internal/wal/wal.go:423-448 | a merge holds all incoming entries and the existing ones below the first of them |
| RaftTypes.MergeContiguous | internal/wal/wal.go:423-448 | merging a batch without a gap keeps the log contiguous and keeps exactly the entries below the batch |
| WalFiles.LayoutUnique | internal/wal/wal.go:337-365 | a directory determines its segment table and its log |
| WalFiles.SegmentsAbut | internal/wal/wal.go:541-560 | segments follow each other without gap or overlap, so searching by last index is sound |
| WalFiles.RewritePlan | internal/wal/wal.go:541-595 | dropping the segments from the overlap on and keeping the old records below, the merged tail completes exactly the merged log above the first retained entry |
| Wal.MergeEntries | internal/wal/wal.go:423-448 | the loop computes raft's overwrite rule |
| Wal.SearchLastIndex | internal/wal/wal.go:552-556 | the search returns the first segment whose last index reaches the target |
| Wal.MemoryWAL.Append | internal/wal/memory.go:54-65 | the flat log after an append, and the hard state replaced even by an empty one |
| Wal.MemoryWAL.TruncatePrefix | internal/wal/memory.go:80-97 | the flat log keeps exactly the entries from the index on |
| Wal.FileWAL.Open | internal/wal/wal.go:101-138 | reopening finds the log and hard state that were there |
| Wal.FileWAL.LoadEntries | internal/wal/wal.go:337-365 | reading the files in number order rebuilds the log and a table that describes the files |
| Wal.FileWAL.Append | internal/wal/wal.go:140-178 | the new log and result for every batch, with files, table and memory image describing the same log |
| Wal.FileWAL.AppendEntriesIncremental | internal/wal/wal.go:475-529 | appended records extend the log on disk, in files within the size limit |
| Wal.FileWAL.AppendRecord | internal/wal/wal.go:475-529 | a record goes into the last segment as long as it fits there, counting 4 bytes of framing; a new segment is opened exactly when there is none or the record would exceed it |
| Wal.FileWAL.RewriteTail | internal/wal/wal.go:541-595 | an overlapping batch leaves the merged log above the first retained entry; the fallback branches are unreachable |
| Wal.FileWAL.TruncatePrefix | internal/wal/wal.go:209-291 | the log keeps exactly the entries from the index on, and after every single remove or rename, each of one file, the directory holds a suffix of the old log with all of them |
| Wal.FileWAL.RemoveLeading | internal/wal/wal.go:237-262 | removing whole segments one by one never removes an entry that is kept |
| Wal.FileWAL.TrimBoundary | internal/wal/wal.go:263-285 | rewriting the boundary segment drops exactly its records below the index |
| Wal.AppendAgreesIff | internal/wal/wal.go:140-178 | FileWAL and MemoryWAL agree on an append exactly when the hard state is not an empty one over a set one and the batch starts neither below the first retained entry nor behind a gap |
| Wal.FileAppendHolds | internal/wal/wal.go:140-178 | FileWAL rejects a batch exactly when it leaves a gap; otherwise it holds the batch and the old entries below it, except what lies below the first entry it had; an empty hard state changes nothing |
| Wal.MemoryAppendHolds | internal/wal/memory.go:54-65 | MemoryWAL takes any hard state and holds the batch and the old entries below it |
| Wal.TruncateHolds | internal/wal/memory.go:80-97 | a truncation keeps the hard state and exactly the entries at or above the index |
| Wal.AppendsDisagree | internal/wal/memory.go:54-65 | the failing cases: a batch from below the retained log loses its first entry in FileWAL only, an empty hard state wipes a set one in MemoryWAL only |
| Wal.FileRefinesMemory | internal/wal/memory.go:54-97 | over any sequence of appends within that condition, truncations and reopenings both logs stay equal |
| Bytes.PrefixRangeExact | internal/storage/pebble.go:149-155 | the range from p to p followed by 0xFF holds exactly the keys with prefix p whose next byte is not 0xFF |
| Bytes.SuccessorIsNext | internal/registry/cleanup.go:29-31 | no key lies strictly between k and k followed by 0x00 |
| Scans.OrderUnique | internal/storage/pebble.go:194-226 | a set of keys has only one sorted listing |
| Scans.ScanLoop | internal/storage/state_machine.go:116-146 | walking keys, skipping and stopping at the limit returns the first limit wanted items in order |
| Scans.ScanContent | internal/storage/pebble.go:194-226 | a scan returns the stored items of the half-open range in strictly increasing key order, all of them or the first limit of them |
| Stores.ApplyAgreesIff | internal/storage/pebble.go:127-165 | one command leaves Pebble and memory with the same business data exactly when no stored key continues the deleted prefix with 0xFF and no metadata key is written |
| Stores.StoresAgree | internal/storage/state_machine.go:75-103 | after the same registry commands both stores hold the same business data, whatever metadata Pebble started with |
| Stores.TopByteSurvives | internal/storage/pebble.go:149-155 | the failing case: a key continuing with 0xFF survives delete_prefix in Pebble only |
| Stores.PebbleStore.ApplyCommand | internal/storage/pebble.go:127-165 | the key space after a command |
| Stores.PebbleStore.Scan | internal/storage/pebble.go:194-226 | a scan lists the business keys of the range in order, up to the limit counted without metadata |
| Stores.StoresAnswerAlike | internal/storage/pebble.go:171-226 | after the same registry commands both stores answer every Get outside the metadata and every Scan, of any range and limit, alike |
| Stores.GetAnswers | internal/storage/pebble.go:171-188 | on either store Get returns the value last put if no later command touches the key, and nothing for a key that was never put |
| Stores.PebbleStore.Restore | internal/storage/pebble.go:262-329 | business data and member addresses are replaced by the payload, other metadata stays |
| Stores.PebbleStore.Snapshot | internal/storage/pebble.go:233-255 | the payload lists all business data and all member addresses in order |
| Stores.SnapshotRoundTrip | internal/storage/pebble.go:233-329 | a snapshot of one store restored on any other transfers business data and members and nothing else |
| Stores.RestoredAt | internal/storage/pebble.go:262-329 | key by key: below __meta__/members/ and outside __meta__/ a restored store is the source, elsewhere the target |
| Stores.MemoryStateMachine.ApplyCommand | internal/storage/state_machine.go:75-103 | the map after a command and the number of keys modified |
| Stores.MemoryStateMachine.Scan | internal/storage/state_machine.go:116-146 | a scan lists the keys of the range in order, up to the limit |
| Cleanup.CleanupCursor.Next | internal/registry/cleanup.go:11-17 | the round starts at the cursor, or at the default start if there is none |
| Cleanup.CleanupCursor.Advance | internal/registry/cleanup.go:20-27 | a full page moves the cursor behind its last key, anything less resets it |
| Cleanup.CleanupCursor.Round | internal/app/app.go:309-351 | one round scans one page from the cursor and proposes to delete its expired instances in order, seen while this node leads, up to the first proposal that fails |
| Cleanup.ExpiredMembers | internal/app/app.go:309-351 | the keys proposed for deletion are exactly those of expired items |
| Cleanup.SweepVisitsStayingKeys | internal/app/app.go:309-351 | whatever changes between rounds, a finished sweep has visited every registry key that was there throughout |
| Cleanup.ListingFrom | internal/registry/cleanup.go:29-31 | a scan from behind the i-th key returns exactly the rest of the listing |
| Cleanup.SteadySweep | internal/registry/cleanup.go:11-31 | while the registry keys stay put, whatever happens to their values and to all other keys, rounds list consecutive pages, each key once, every round starts behind the last key of the one before, and the cursor is back at the start after n / limit + 1 rounds and not before |
| Text.SplitJoin | internal/registry/model.go:374 | splitting undoes joining when no part holds the separator |
| Text.JoinSplit | internal/registry/model.go:374 | joining undoes splitting |
| RegistryModel.KeyRoundTrip | internal/registry/model.go:363-383 | a registry key parses back exactly when no identifier holds a slash or is blank, in the sense of white space of any encoding, and otherwise parses to nothing |
| RegistryModel.KeyTexts | internal/registry/model.go:353-365 | registry keys and scan prefixes, written out |
| RegistryModel.ParsedKey | internal/registry/model.go:368-383 | a key that parses is the key of what it parses to |
| RegistryModel.ServicePrefixIff | docs/modules/registry.md:92-95 | a textual prefix is a hierarchy prefix exactly when the name does not run on past it with something else than a dot |
| RegistryModel.ServiceQueryIff | internal/registry/model.go:530-560 | the service filter does what is documented unless the exact filters pass and the name runs on past every asked prefix it has, having at least one |
| RegistryModel.PrefixMatchesSibling | internal/registry/model.go:550 | the failing case: the prefix "a.b" matches the service "a.bc" |
| WatchProtocol.RunKeepsInv | internal/registry/watch.go:48-115 | for every interleaving of subscribing, unsubscribing, receiving and the halves of Publish, the history is the last 2048 events and each watcher's channel holds a hole-free run |
| WatchProtocol.ReplayComplete | internal/registry/watch.go:117-139 | when the hub calls a replay exact, the window has lost no event above since |
| WatchProtocol.ReplayIff | internal/registry/watch.go:117-139 | a replay is exact exactly when since is not 0, something was published, and since lies above all of it or the oldest of the last 2048 events is at most one above since; it then holds exactly the published events above since, in order, and otherwise nothing |
| WatchProtocol.SubscriptionIff | internal/registry/watch.go:48-77 | the same for every subscription of any run, in terms of what was published before it |
| WatchProtocol.ExactlyOnce | internal/registry/watch.go:48-146 | each event is either published before a subscription or sent to it, never both; exact replay followed by sent events is exactly the published events above since; a registered watcher misses nothing outside a running Publish |
| WatchProtocol.ClosedMeansUnsubscribed | internal/registry/watch.go:61-99 | within a Publish a channel still to be sent to is closed exactly when its watcher unsubscribed meanwhile |
| WatchHubs.WatchHub.SubscribeSince | internal/registry/watch.go:48-77 | a new watcher with an empty buffer of the asked size, or 64; when the replay is exact, and that it then holds exactly the events of the window above since |
| WatchHubs.WatchHub.ReplaySinceLocked | internal/registry/watch.go:117-139 | the replay is exact exactly when since is not 0 and lies above the window or at most one below its start; it holds the events above since, or nothing |
| WatchHubs.WatchHub.AppendHistoryLocked | internal/registry/watch.go:141-146 | the history keeps the last 2048 events |
| WatchHubs.WatchHub.Publish | internal/registry/watch.go:83-115 | every watcher with room gets the event and stays, every other is closed without it; other channels do not change; the call is a legal run of the protocol |
| WatchHubs.WatchHub.Unsubscribe | internal/registry/watch.go:62-74 | the watcher is removed and its channel closed once |
| Publisher.PublishRegistryEvents | internal/app/app.go:559-602 | a batch of committed entries publishes exactly the events of its registry commands, in log order |
| Publisher.EntriesAreLog | internal/app/app.go:559-602 | what is published from a stretch of committed entries is the event list of the commands that the data of the normal ones decodes to |
| WatchView.CollectInstances | internal/transport/http/handlers_impl.go:885-902 | a snapshot lists the scanned instances that decode and match, the first limit of them if there is a limit |
| WatchView.ShownFields | internal/registry/model.go:106-124 | field by field: an instance is shown exactly when it has the asked namespace, service, zone and labels and an endpoint of the asked name or protocol; it is sent with its own fields, those endpoints in order, and a lease of 30 seconds if it has none |
| WatchView.ListedFields | internal/transport/http/handlers_impl.go:885-902 | the listed instances are, in order, exactly those of the scanned items that decode to what is asked for, or the first limit of them, each sent like that |
| WatchView.FrameFields | internal/transport/http/handlers_impl.go:746-799 | which events give a frame, with which identity and revision, and that it is an upsert exactly if the event is one whose instance is asked for |
| WatchView.EventFields | internal/app/app.go:559-602 | which commands are published, with the identity of their key, their kind and the decoded instance |
| WatchView.WatchInstances | internal/transport/http/handlers_impl.go:439-511 | what is written for every combination of since, exactness and includeSnapshot |
| WatchView.SendReplay | internal/transport/http/handlers_impl.go:465-475 | the frames of the replayed events and the revision the live loop starts from |
| WatchView.SendLive | internal/transport/http/handlers_impl.go:494-510 | the live loop skips events at or below the current revision |
| WatchConvergence.AnnouncedIff | internal/app/app.go:559-602 | a registration is announced exactly when its value decodes and no identifier holds a slash or is blank |
| WatchConvergence.SlashUnannounced | internal/app/app.go:559-602 | the failing case: an instance called "a/b" is stored and no event is published |
| WatchConvergence.ShownExact | internal/transport/http/handlers_impl.go:875-896 | for a proper record the scanned prefix adds nothing to the filter on its identity |
| WatchConvergence.ViewStep | internal/transport/http/handlers_impl.go:746-799 | applying a command and filtering is filtering and applying its change frame, an upsert that stops matching acting as a delete |
| WatchConvergence.ViewFold | internal/transport/http/handlers_impl.go:746-799 | the same for whole logs |
| WatchConvergence.EventsFold | internal/transport/http/handlers_impl.go:746-864 | folding the frames of a stretch of the log is folding its view commands |
| WatchConvergence.LiveIsAbove | internal/transport/http/handlers_impl.go:494-510 | with increasing revisions the live loop sends exactly the frames of the events above its start |
| WatchConvergence.InstallIsView | internal/transport/http/handlers_impl.go:866-903 | a snapshot frame hands the client exactly the filtered content of the scanned store |
| WatchConvergence.ExactFrames | internal/transport/http/handlers_impl.go:464-511 | after an exact replay the frames sent are those of the log above since, each once |
| WatchConvergence.ExactStreamConverges | internal/transport/http/handlers_impl.go:464-511 | a client whose view stands for the log above since ends with the filtered registry |
| WatchConvergence.SnapshotStreamConverges | internal/transport/http/handlers_impl.go:445-511 | a snapshot marked with an index possibly older than its content, followed by the live events above the mark, ends with the filtered registry |
| WatchConvergence.WatchConverges | internal/transport/http/handlers_impl.go:429-511 | end to end: for every interleaving of the hub, a drained client holds the filtered registry at the last published index |
| ReplicaKeys.PrefixIsolation | internal/registry/replication.go:57-69 | clearing a replicated service reaches exactly the instances of that source and service and no checkpoint |
| ReplicaKeys.ReplicaKeyTexts | internal/registry/replication.go:57-69 | replicated keys, their prefix and checkpoint keys, written out |
| ReplicaKeys.ReplicatedKeyRoundTrip | internal/registry/replication.go:62-104 | a replicated key of plain identifiers parses back exactly when the cluster is not called "registry" |
| ReplicaKeys.RegistryClusterUnread | internal/registry/replication.go:62-104 | the failing case: a replicated key of a cluster called "registry" parses to nothing |
| Replica.Consumer.Propose | internal/app/replication.go:245-365 | proposals take effect in order up to the first failure |
| Replica.Consumer.RunStream | internal/app/replication.go:161-199 | a connection applies the proposals of the frames with growing revisions, up to the point where it breaks |
| Replica.FrameShape | internal/transport/http/handlers_impl.go:801-864 | the change frames of a service's stream are about plain instances of that service |
| Replica.ChangeFields | internal/app/replication.go:275-380 | what a change frame proposes, in order: the write or deletion of the instance under its replicated key, a written record copying the instance and carrying its source and the frame's revision, and a checkpoint with the revision and no snapshot revision |
| Replica.SnapshotFields | internal/app/replication.go:245-273 | what a snapshot frame proposes, in order: the clearing of the service, one such record per instance, and a checkpoint with the revision as the applied one and as that of the snapshot |
| Replica.AcceptedFrames | internal/app/replication.go:161-199 | a frame whose revision does not lie above the last one proposes nothing |
| Replica.MirrorsCopies | internal/app/replication.go:367-380 | a mirrored instance agrees with the source in every field but the hierarchy, which is empty, and a missing lease, which becomes 30 seconds |
| Replica.ChangeEffect | internal/app/replication.go:275-326 | the instance write and the checkpoint write of a change frame, one, both or none of them |
| Replica.SnapshotEffect | internal/app/replication.go:245-273 | what the first proposals of a snapshot frame leave, whatever was there before |
| Replica.RunKeepsInv | internal/app/replication.go:130-326 | at every point the replica mirrors its view, and outside an unfinished snapshot the events above the checkpoint bring that view up to date |
| Replica.ReplicaConverges | internal/app/replication.go:245-326 | folding the source's events above the checkpoint gives the source's view at every later index, also after a break between value and checkpoint; with none left the replica holds exactly the source's instances, each copied field by field |
| Replica.SnapshotRepairs | internal/app/replication.go:245-273 | a finished snapshot frame re-establishes this from any replica state and leaves copies of exactly the instances of the snapshot |
| Replica.TornSnapshotIff | internal/app/replication.go:245-273 | after an unfinished snapshot frame, resuming from the old checkpoint works exactly when every instance the source had there was changed since or is already written again |
| Replica.TornSnapshotLoses | internal/app/replication.go:245-273 | the failing case: an up-to-date replica loses its instances and no event is left to bring them back |
| Replica.OneInstanceLog | internal/registry/model.go:363-365 | one plain registration at the source already meets the assumptions of the failing case |
| Replica.LostWriteIff | internal/app/replication.go:275-339 | when the instance write of a change frame is lost and its checkpoint is not, the replica can still catch up to a later index exactly when the frame changed nothing or its instance is touched again by then |
| Replica.LostWriteLoses | internal/app/replication.go:275-339 | the failing case: a first registration is lost, the checkpoint says it was applied, and no event is left to bring it |
| Replica.LostProposalsIff | internal/app/replication.go:245-273 | when any proposals of a snapshot frame are lost except the checkpoint write, the replica comes to the source's view at a later index exactly when every key on which it differs from the snapshot is touched by then |
| Replica.LostPutIff | internal/app/replication.go:245-273 | for one lost instance write: exactly when that instance is touched after the mark |
| Replica.LostClearIff | internal/app/replication.go:245-273 | for a lost clearing proposal: exactly when every instance it had that is not in the snapshot is touched after the mark |
| Replica.LostPutLoses | internal/app/replication.go:245-273 | the failing case: an instance write of a snapshot at the end of the log is lost and no event is left to bring it |
| Replica.ReplayConnection | internal/app/replication.go:130-199 | a connection that replays events, broken anywhere, is a legal run of the replica |
| Replica.SnapshotConnection | internal/app/replication.go:130-199 | a connection that opens with a snapshot, broken anywhere, is a legal run of the replica |
| SnapshotStore.FileStore.constructor | internal/snapshot/snapshot.go:70-75 | a store opens on the directory an earlier process left, at whatever file step it stopped |
| SnapshotStore.FileStore.Create | internal/snapshot/snapshot.go:88-135 | the snapshot is completed and the newest two are kept; after every file step the newest completed snapshot has both files |
| SnapshotStore.FileStore.Write | internal/snapshot/snapshot.go:124-130 | data file first, then metadata file |
| SnapshotStore.FileStore.OpenLatest | internal/snapshot/snapshot.go:140-154 | the completed snapshot with the greatest index, then term, and its content |
| SnapshotStore.FileStore.Cleanup | internal/snapshot/snapshot.go:172-195 | exactly the newest keep stay, the newest of all is never touched |
| SnapshotStore.NewestOfMeans | internal/snapshot/snapshot.go:172-246 | what is kept is as many as there are up to keep, and each of them has a greater index, or the same and a greater term, than each that is not |
| SnapshotStore.ListedNewest | internal/snapshot/snapshot.go:200-246 | the first listed metadata is the newest ever completed, and the list is empty only if nothing was |
| ChunkTransfer.SplitSnapshotChunks | internal/runtime/peer_transport.go:169-196 | the loop computes the pieces, also for empty data and a chunk size that is not positive |
| ChunkTransfer.SplitCovers | internal/runtime/peer_transport.go:169-196 | the chunks put the data end to end and only the last one is marked |
| ChunkTransfer.ChunkSizes | internal/runtime/peer_transport.go:169-196 | every chunk but the last has exactly the chunk size, 64 KiB if none is set, and the last what is left |
| ChunkTransfer.TransportService.InstallSnapshotChunk | internal/runtime/transport_service.go:56-86 | session table and outcome after a chunk |
| ChunkTransfer.TransportService.ReceiveStream | internal/transport/grpc/server.go:94-129 | an upload stops at the first error and at the chunk marked last |
| ChunkTransfer.AcceptIsSafe | internal/runtime/transport_service.go:56-86 | a chunk at a wrong offset changes no buffer, at most an empty session appears |
| ChunkTransfer.TransferIsSafe | internal/runtime/transport_service.go:56-86 | for any order, loss, repetition and interleaving of the chunks that any senders cut their snapshots into, in any sizes, every buffer is a prefix of its snapshot and only whole snapshots are installed |
| ChunkTransfer.InOrderInstallsIff | internal/runtime/transport_service.go:56-86 | in-order delivery installs the snapshot once if and only if its session holds no left-over bytes; otherwise nothing changes |
| ChunkTransfer.LeftoverBlocksUpload | internal/runtime/transport_service.go:56-86 | the failing case: an upload that stops after its first chunk makes the next upload of the same snapshot install nothing and change nothing |
| ReadBarrier.Waiters.AddWaiter | internal/raftnode/node.go:447-455 | a request registers under its context, replacing another one there |
| ReadBarrier.Waiters.Remove | internal/raftnode/node.go:726-734 | whatever waiter the context names is closed and forgotten |
| ReadBarrier.Waiters.HandleReadStates | internal/raftnode/node.go:639-650 | every waiter whose context occurs gets the index of the first state for it and is forgotten; all other waiters and channels stay |
| ReadBarrier.StatesAreConfirms | internal/raftnode/node.go:639-650 | such a call is the table part of a run that confirms those requests, so the theorems on runs hold of the method |
| ReadBarrier.RunKeepsInv | internal/raftnode/node.go:442-472 | with distinct contexts in flight the table names each waiting request under its own context |
| ReadBarrier.ReceivesItsOwnIndex | internal/raftnode/node.go:442-472 | with distinct contexts in flight a caller gets the index raft confirmed for its own request |
| ReadBarrier.AskSafelyIff | internal/raftnode/node.go:442-472 | after any run with distinct contexts a new request may use a context exactly when none in flight uses it: then every ending gives every caller its own confirmed index, otherwise some ending gives a caller another one |
| ReadBarrier.CollidingContexts | internal/raftnode/service.go:95-101 | the failing case: two reads of one key, the first times out and the second returns index 0 |
| ReadBarrier.SteadyForward | internal/raftnode/node.go:710-724 | once redelivery is over the applied position only grows |
| ReadBarrier.LinearizableRead | internal/raftnode/service.go:62-118 | a read behind the barrier, with distinct contexts and an index not below the commit the process restarted with, sees the state after an index that is at least the one raft confirmed for it; redelivery is over by then |
| Selector.SplitSelectorExpressions | internal/registry/selector.go:133-172 | the scanning loop against its specification, errors included |
| Selector.ParseSetSelectorValues | internal/registry/selector.go:264-284 | the distinct values in order, or an error for a blank one |
| Selector.ValuesMeans | internal/registry/selector.go:264-284 | the values are an error exactly if an item is blank, and otherwise the trimmed items, each once |
| Selector.SplitNeedsBalance | internal/registry/selector.go:133-172 | only text with balanced parentheses is split, and no part is blank |
| Selector.EmptyExpression | internal/registry/selector.go:149-167 | nothing between two commas, behind the last or in front of the first is an error |
| Selector.EmptyOperand | internal/registry/selector.go:193-262 | a comparison without key or value and a lone exclamation mark are errors |
| Selector.NoParentheses | internal/registry/selector.go:228-231 | a set without parentheses is an error |
| Selector.DoubleEquals | internal/registry/selector.go:186-188 | two equals signs mean the same as one |
| Selector.UpperOperator | internal/registry/selector.go:209-247 | set operators may be in capitals |
| Selector.SplitsBack | internal/registry/selector.go:133-172 | rendered requirements joined with commas are split at exactly those commas |
| Selector.ParsesBack | internal/registry/selector.go:174-262 | a rendered requirement over tokens of any bytes parses to itself exactly when it is no set requirement or lowering makes its key no shorter and at most one byte longer |
| Selector.SelectorRoundTripIff | internal/registry/selector.go:26-43 | rendering any list of requirements over tokens of any bytes in the documented grammar and parsing it gives the same list exactly when every key of a set requirement is like that |
| Selector.SelectorRoundTrip | internal/registry/selector.go:26-43 | with ASCII keys the round trip always works |
| Selector.WideKeyFails | internal/registry/selector.go:209-245 | the failing case: with the label U+023A repeated n times a set requirement is read back for n = 1, then rejected, and slices out of range once n exceeds the length of its value by more than 3 |

## Left out

- The Raft library: elections, replication and its in-memory storage beyond snapshot index and first index.
- The snapshot branch of `handleReady` and `RaftNode.InstallSnapshot`: they can move the store back to an older index.
- Torn writes within a file, fsync, and crash safety of `rewriteTail`, which removes segments before it rewrites them; the
  crash steps of the WAL are whole appends and whole truncations, and `Wal.FileWAL.TruncatePrefix` covers the file steps
  of the latter.
- I/O errors, most of which `handleReady` ignores, and the applied term, which nothing reads back.
- Wrap-around of 64-bit indexes; indexes are unbounded, and the one subtraction that could wrap is proved not to.
- `emitReady` dropping a batch when its channel is full: the watch theorems assume all batches are published.
- A send on a channel closed by unsubscribe ends the process; runs that get past such a send are not legal runs of
  `WatchProtocol`, and
  `WatchProtocol.ClosedMeansUnsubscribed` says when they would occur.
- Lease expiry in watch and replication streams: instances count as alive; cleanup takes expiry as a parameter.
- The order in which Publish visits watchers, and which of several subscribers runs next: any.
- Trimming and copying of label maps on their way into a frame, the hierarchy fields repeated on a frame, and the frame's
  export time: they are functions of what the model keeps.
- Register input normalisation, the address book, the replication tracker, authentication, metrics, HTTP, SSE and gRPC
  encoding, configuration and the command line: plumbing.
- Member addresses beyond carrying them through a store snapshot, and configuration changes, which act as empty commands.
- Mutexes: the methods of `FileWAL`, `FileStore` and `TransportService` run one at a time, as their locks make them.
- ReadBarrier.LinearizableRead: the polling loop and its timeout appear as the condition that let the read through.
- WatchView.WatchInstances: pings, write errors and the request context are not modelled; the live events are the ones
  received before the stream ends.
- Replica.Consumer.Propose: an accepted proposal takes effect at once; what its loss after acceptance does is stated for
  one frame at a time in `Replica.LostWriteIff` and `Replica.LostProposalsIff`, not inside the runs of `RunKeepsInv`.
- Replica.Consumer.RunStream: the line protocol is read as a list of frames; a frame that does not decode ends the stream
  like a failed proposal.
- Selector.SelectorRoundTrip: the legacy `label=key=value` form and the merging of several selector parameters are only
  concatenations and not modelled.
