# Termyard: a verified model of its stateful cores

Termyard is a terminal server: it keeps layout groups of sessions in sync
between hosts, streams terminal output to browsers, and supervises helper
processes. This project models the parts of it whose correctness depends on
state, order or arithmetic, and proves what those parts promise.

* **Layout groups** (`PaneTree`, `PaneNodes`, `GroupMerge`, `Enforcement`, `GroupRuns`,
  `GroupConvergence`, `GroupStore`). `Enforced` states the outcome of the
  membership rule declaratively: each record's fate given the keys of the
  higher-priority survivors. It is proved unique, idempotent and exclusive; the
  store's methods are proved to take the steps named in `GroupRuns.Step`, runs
  of steps keep the store good and tombstones in place, and two good replicas
  whose equal stamps carry equal values are identical after exchanging snapshots
  twice, however contested their keys.
* **Terminal byte path** (`KittyStream`, `KittyCommands`, `Base64`,
  `RingBuffer`, `FrameCodec`, `ClientBuffers`, `CaptureTail`, `Coalescer`). Streaming and
  block-copy code against plain functions on byte sequences.
* **Protocols** (`Coalescer`, `ClientBuffers`, `CaptureTail`, `StreamRegistry`,
  `StreamDelivery`, `Supervisor`, `InstallSwap`, `Watch`). One step per critical
  section or blocking point; the theorems hold in every interleaving.
* **Bounded arithmetic and caches** (`Limiter`, `ArtifactLru`, `UniqueName`).

`StringOrder`, `Options` and `Bytes` hold what several modules share. Methods
carry the source's loops and updates in place; each is tied to a function or a
relation about which the lemmas speak. Where the source walks a Go map, the
method takes the keys in an arbitrary order.

Time is an integer with 0 as Go's zero time in the group store, and real
seconds in the limiter. Library calls that matter are written out: sorting
(`StringOrder.SortSet`), `copy` (`RingBuffer.Copy`), splitting, trimming,
decimal numbers and base64 (section 4 of RFC 4648).

## Findings

Places where a plausible property fails, each with its exact condition and an
input or a run that shows it:

* pkg/groupsync/groupsync.go:518-549 — a rename rewrites every string of a stored
  tree, the kinds of its nodes included, and a session may be called `leaf` or
  `split` (pkg/model/client.go:10-29). Trees survive as trees exactly when the
  old name is neither (`PaneNodes.RenameSafeIff`). Renaming `leaf` leaves no tree
  with a member, so enforcement tombstones every live group that has one
  (`PaneNodes.LeafRenameKillsAll`); renaming `split` keeps the keys but no leaf
  can be removed any more, so two live groups can share keys
  (`PaneNodes.SplitRenameShares`, `PaneNodes.SharedAfterSplitRename`). A group
  that loses no key to others survives the rename exactly when the old name is
  not `leaf`, nor `split` with `leaf` as the new name
  (`PaneNodes.RenameKeepsGroupIff`).
* pkg/groupsync/groupsync.go:337-349 — split directions are rewritten, too: a
  rename touches a tree exactly when the old name is among its keys or its
  directions (`PaneTree.ReplaceStringsTouches`).
* pkg/ws/coalescer.go:205-239 — draining goes on after a failed write, so on a
  connection that fails one write and then recovers, output is lost in the
  middle. The wire holds a prefix of the output in every run exactly when
  failures stay (`Coalescer.PrefixIffSticky`, `Coalescer.RecoveringLinkLosesBytes`).
  The one caller (pkg/ws/pty_terminal.go:52-57) writes to a websocket connection
  of a library that is not part of this model; as long as that keeps its write
  errors, this does not happen to it.
* pkg/wikilite/supervisor.go:191-197 — past its deadline `pause` lets the
  directory swap go ahead. No child runs beside it until `resume` exactly when
  none is running at the deadline and the loop is not past its gate on the way to
  starting one (`Supervisor.LateSwapNoneAliveIff`); for none to exist at all, the
  last one must have been reaped as well (`Supervisor.LateSwapSafeIff`). A live
  child at the deadline is reachable (`Supervisor.LateSwapReached`).
* pkg/wikilite/install.go:269-271 — nothing orders the background removal of the
  old install before the next `Commit`. Over a healthy install `Commit` may
  begin exactly when that removal has finished (`InstallSwap.BeginSafeIff`), and
  the step that needs it is the rename of the live directory
  (`InstallSwap.AsideSafeIff`); otherwise a crash can leave no install
  (`InstallSwap.OverlapLosesInstall`), and such a `Commit` can come about
  (`InstallSwap.OverlapReached`).
* pkg/pty/registry.go:989-1007 — `CaptureTail` takes the first frame that comes.
  The daemon adds the client to its broadcasts before it greets it
  (pkg/pty/daemon.go:502-529), so output can come first and the capture fails:
  in every run exactly when output was broadcast to the client while its wire was
  empty (`CaptureTail.RefusedIffOvertaken`), which can happen from any point
  before a replay is queued (`CaptureTail.NeverRefusedIff`, `CaptureTail.OutputFirst`).
* pkg/pty/registry.go:982, 1035 — the window is cut to 32 bits. Captures get the
  right bytes and cleaning in every run exactly when 32 bits hold the window, or
  what is left of it exceeds the buffer (`CaptureTail.WindowIff`); a window of
  4 GiB on any nonempty buffer shows it (`CaptureTail.WrongCleaning`). The one
  caller asks for 64 KiB.
* pkg/pty/daemon_client.go:193-229 — the framed reader's comment promises replay,
  one mark, then live data. That holds exactly while no noticeable replay frame
  arrives after a read has passed the replay, which it already has when it waits
  (`ClientBuffers.ReplayFirstIff`, `ClientBuffers.LateReplayBreaksOrder`).
* pkg/pty/daemon_client.go:119-154 — a client buffer that would overflow is
  emptied, not trimmed: it keeps the most it could exactly when all fits or the
  new data alone fills it (`ClientBuffers.OnlyOldestDiscardedIff`,
  `ClientBuffers.FullBufferGivenUp`).
* pkg/peer/streamreg.go:131-156, 225-230 — a stream can be matched to a claim that
  has timed out but not yet left the queue; it is lost and its token used up
  (`StreamDelivery.MatchedAndLost`). A matched stream can still be won exactly
  when its claim has not given up (`StreamDelivery.CanWinIff`).
* pkg/auth/limiter.go:99 — the retry hint is rounded down: waiting it out suffices
  exactly when the need is at most a second or a whole number of seconds
  (`Limiter.RetrySufficesIff`, `Limiter.RetryTooShort`).
* pkg/groupsync/groupsync.go:213-238 — the merge of two records is commutative
  exactly when equal stamps carry equal values (`GroupMerge.MergeCommutes`); two
  trees written at the same time stay apart (`GroupMerge.TieStaysApart`).
* pkg/groupsync/groupsync.go:120-123 — the design notes of the group store say a
  later tree stamp can bring a tombstoned group back; the code never does
  (`GroupRuns.RunsStayGood`, and `GroupRuns.LaterStampStaysDead` on a store with
  one such group).

## Model

| member | source | states |
|---|---|---|
| PaneTree.WithoutFiltersLeaves | pkg/groupsync/groupsync.go:735-789 | pruning yields the in-order leaves with the pruned keys filtered out, and is empty iff nothing else remained |
| PaneTree.WithoutKeepsSplits | pkg/groupsync/groupsync.go:750-782 | every split that keeps a key on both sides keeps its direction and ratio and its place; the others collapse |
| PaneTree.WithoutUnchanged | pkg/groupsync/groupsync.go:763-765 | a tree is left alone iff it holds none of the pruned keys |
| PaneTree.RemoveLeafMeaning | pkg/groupsync/groupsync.go:738-789 | the collapsing recursion equals one-pass pruning and reports a removal iff the key was present |
| PaneTree.WithoutCompose | pkg/groupsync/groupsync.go:441-449 | pruning keys one after the other is pruning their union |
| PaneTree.RemoveLeafCommutes | pkg/groupsync/groupsync.go:738-789 | removals of two keys commute |
| PaneTree.CollectMemberKeys | pkg/groupsync/membership.go:56-82 | the shared set grows by exactly the keys below the node |
| PaneTree.MemberKeys | pkg/groupsync/membership.go:16-36 | the distinct keys, each once, sorted; two or more iff the tree has two distinct keys |
| PaneTree.ReplaceStringsMeaning | pkg/groupsync/groupsync.go:518-549 | for names that are no node kind: every string is renamed by the first matching old name, and a hit is reported iff the tree changes |
| PaneTree.RenameKeys | pkg/groupsync/groupsync.go:518-549 | the keys of a renamed tree are the old keys renamed |
| PaneTree.ReplaceStringsTouches | pkg/groupsync/groupsync.go:337-349 | a tree is touched iff an old name is among its keys or directions |
| PaneNodes.WellFormedIsStored | pkg/groupsync/groupsync.go:735-789 | nodes with their kinds intact are exactly the stored panes |
| PaneNodes.StoredMembers | pkg/groupsync/membership.go:56-82 | on stored panes the key collection is that of the pane, without error |
| PaneNodes.StoredRemove | pkg/groupsync/groupsync.go:738-789 | on stored panes leaf removal is that of the pane |
| PaneNodes.StoredRewrite | pkg/groupsync/groupsync.go:518-549 | rewriting stored panes is rewriting panes when no name is a node kind |
| PaneNodes.StoredOutcome | pkg/groupsync/groupsync.go:419-512 | removing taken keys one by one from a stored pane and counting the rest gives the verdict on the pane |
| PaneNodes.RenameSafeIff | pkg/groupsync/groupsync.go:317-354 | every tree stays a pane after a rename iff the old name is no node kind |
| PaneNodes.LeafRenameKillsAll | pkg/groupsync/groupsync.go:518-549 | renaming leaf, every group with a tree is tombstoned whatever is taken from it |
| PaneNodes.SplitRenameFreezes | pkg/groupsync/groupsync.go:738-789 | renaming split keeps the keys, or makes the tree unreadable at leaf, and no leaf can be removed |
| PaneNodes.SplitRenameShares | pkg/groupsync/groupsync.go:439-484 | such a group keeps all its keys even when all of them are taken |
| PaneNodes.SharedAfterSplitRename | pkg/groupsync/groupsync.go:439-484 | a tree of two keys as an example |
| PaneNodes.RenameKeepsGroupIff | pkg/groupsync/groupsync.go:317-375 | with a fresh new name a group survives iff the old name is not leaf, nor split renamed to leaf |
| GroupMerge.MergeAssociative | pkg/groupsync/groupsync.go:213-238 | the field-level merge is associative |
| GroupMerge.MergeTakesNewest | pkg/groupsync/groupsync.go:213-238 | every field of the merge is the newer of the two, with its stamp |
| GroupMerge.MergeCommutes | pkg/groupsync/groupsync.go:213-238 | it is commutative exactly when equal stamps carry equal values |
| GroupMerge.TieStaysApart | pkg/groupsync/groupsync.go:213-217 | two different trees with the same stamp: each side keeps its own |
| GroupMerge.MergeIdle | pkg/groupsync/groupsync.go:240-242 | a record absorbs another exactly when no field of that is newer |
| GroupMerge.MergeRecord | pkg/groupsync/groupsync.go:205-238 | the sequence of field updates computes the merge and reports acceptance exactly |
| GroupMerge.AbsorbNext | pkg/groupsync/groupsync.go:260-293 | the ids of a snapshot can be merged one by one in any order |
| GroupMerge.AbsorbCommutes | pkg/groupsync/groupsync.go:256-293 | merging stores whose equal stamps agree is commutative |
| GroupMerge.AbsorbAssociative | pkg/groupsync/groupsync.go:256-293 | merging stores is associative |
| GroupMerge.AbsorbAgain | pkg/groupsync/groupsync.go:256-293 | a store already merged adds nothing |
| GroupMerge.AbsorbChanges | pkg/groupsync/groupsync.go:288-293 | the ids reported as changed by the merge are those that changed |
| Enforcement.BeforeIsStrictTotal | pkg/groupsync/groupsync.go:398-417 | the order of precedence is a strict total order |
| Enforcement.HigherKeepsKey | pkg/groupsync/groupsync.go:398-417 | of two groups holding a key, the winner, then the later tree stamp, then the smaller id keeps it if it survives; the other loses it |
| Enforcement.KeyLostToHigher | pkg/groupsync/groupsync.go:398-449 | a survivor loses a key only to a surviving holder of precedence in that sense |
| Enforcement.SurvivesIff | pkg/groupsync/groupsync.go:451-472 | a group survives iff two keys remain that no surviving group of precedence held |
| Enforcement.EnforcedRecords | pkg/groupsync/groupsync.go:468-512 | a record is left as it was, tombstoned now, or given another tree stamped now, and nothing else of it changes |
| Enforcement.EnforcedSettles | pkg/groupsync/groupsync.go:376-384 | afterwards no key is in two live groups and every live tree has two keys or more, from any store |
| Enforcement.EnforcedUnique | pkg/groupsync/groupsync.go:385-515 | the outcome is unique; different clocks change stamps only |
| Enforcement.EnforcedIdempotent | pkg/groupsync/groupsync.go:385-515 | a second enforcement with any winner changes nothing |
| Enforcement.WinnerKeepsTree | pkg/groupsync/groupsync.go:402-408 | a live winner with two keys or more keeps its record |
| Enforcement.SurvivorLeaves | pkg/groupsync/groupsync.go:439-484 | a survivor's leaves are its old ones in order minus the keys of higher-priority survivors |
| Enforcement.OwnedAheadIff | pkg/groupsync/groupsync.go:419-466 | a key is taken from a group iff a higher-priority holder of it survives |
| Enforcement.KeyGoesToFirstSurvivor | pkg/groupsync/groupsync.go:376-384 | a key stays with its highest-priority surviving holder; an unowned key had all holders tombstoned |
| Enforcement.EnforcedOnlyPrunes | pkg/groupsync/groupsync.go:389-395 | tombstones are untouched and no group gains a key |
| GroupRuns.StepsKeepGood | pkg/groupsync/groupsync.go:118-375 | every operation, renames of node kinds aside, keeps exclusive membership, stamps and tombstones |
| GroupRuns.RunsStayGood | pkg/groupsync/groupsync.go:118-733 | in every run of such operations from a good store all of that holds at every point, and a tombstone stays for good |
| GroupRuns.RunsFromEmpty | pkg/groupsync/groupsync.go:118-733 | in particular from the empty store |
| GroupRuns.LaterStampStaysDead | pkg/groupsync/groupsync.go:118-141 | a later tree stamp, local or remote, leaves a tombstoned group dead |
| GroupRuns.SetTreeWins | pkg/groupsync/groupsync.go:118-141 | the tree just written survives whole and no other live group shares a key with it |
| GroupRuns.RemoteTreeWins | pkg/groupsync/groupsync.go:202-252 | a newer tree from a peer survives whole and no other live group shares a key with it |
| GroupRuns.TreeReachesPeer | pkg/groupsync/groupsync.go:114-141 | a tree written here replaces an older one at a peer; the other fields are as before |
| GroupRuns.NameReachesPeer | pkg/groupsync/groupsync.go:153-170 | a name and its mode replace older ones at a peer; nothing else is written |
| GroupRuns.RankReachesPeer | pkg/groupsync/groupsync.go:172-187 | a rank replaces an older one at a peer; nothing else is written |
| GroupRuns.DeleteReachesPeer | pkg/groupsync/groupsync.go:189-200 | a deletion kills the group at every peer that hears of it, and keeps its fields |
| GroupRuns.MigrateToFreshName | pkg/groupsync/groupsync.go:317-375 | renaming a session that bears no node kind's name to an unused name tombstones and prunes nothing, keys are renamed one to one |
| GroupRuns.ReconcilePurges | pkg/groupsync/groupsync.go:656-733 | after a reconciliation no live group holds a gone key |
| GroupRuns.ReconcileExact | pkg/groupsync/groupsync.go:656-733 | on a good store live groups lose exactly their gone keys, dissolve below two, and are stamped iff they changed; other records stay |
| GroupRuns.RemoveSessionKeyPurges | pkg/groupsync/groupsync.go:552-643 | after the removal no live group holds the key |
| GroupRuns.RemoveSessionKeyExact | pkg/groupsync/groupsync.go:552-643 | the same for the removal of one key |
| GroupConvergence.OneExchangeAgrees | pkg/groupsync/groupsync.go:253-315 | good replicas whose equal stamps carry equal values have the same ids, liveness and trees after one exchange of snapshots; they are identical if the merge was settled |
| GroupConvergence.TwoExchangesConverge | pkg/groupsync/groupsync.go:253-315 | good replicas whose equal stamps carry equal values are identical after two exchanges, whatever keys were contested and whatever the clocks read |
| GroupStore.AheadIsPrefix | pkg/groupsync/groupsync.go:389-417 | the groups ahead of one in priority are those before it in the sorted list |
| GroupStore.SettleNext | pkg/groupsync/groupsync.go:422-488 | one round of the enforcement loop settles one more group and leaves the settled ones settled |
| GroupStore.PruneWhere | pkg/groupsync/groupsync.go:439-449 | dropping matching keys one at a time prunes exactly those, and reports whether there were any |
| GroupStore.Judge | pkg/groupsync/groupsync.go:424-487 | the fate of one live group and the keys it owns from then on |
| GroupStore.PruneOne | pkg/groupsync/groupsync.go:667-712 | one record pruned of its gone keys, tombstoned below two |
| GroupStore.ReportsCombine | pkg/groupsync/groupsync.go:714-724 | the reports of pruning and enforcement combine to exactly what changed and what it was |
| GroupStore.Store.SettleInOrder | pkg/groupsync/groupsync.go:419-488 | the first pass establishes the enforced outcome and reports exactly the altered records |
| GroupStore.Store.DissolveDegenerate | pkg/groupsync/groupsync.go:490-512 | the second pass tombstones exactly the untouched live groups below two keys |
| GroupStore.Store.Enforce | pkg/groupsync/groupsync.go:385-515 | the enforced outcome; changed and prior are exactly the altered records with new and old values |
| GroupStore.Store.SetTree | pkg/groupsync/groupsync.go:114-141 | refuses a tombstoned id, else writes and enforces with the id as winner |
| GroupStore.Store.SetName | pkg/groupsync/groupsync.go:153-170 | names a known group, refuses an unknown one |
| GroupStore.Store.SetRank | pkg/groupsync/groupsync.go:172-187 | ranks a known group, refuses an unknown one |
| GroupStore.Store.Delete | pkg/groupsync/groupsync.go:189-200 | stamps a tombstone, also on an unknown id |
| GroupStore.Store.ApplyRemote | pkg/groupsync/groupsync.go:202-252 | merges one record; the writer of an accepted tree is the winner |
| GroupStore.Store.MergeAll | pkg/groupsync/groupsync.go:260-293 | the merge loop computes the id-wise merge in any map order |
| GroupStore.Store.ApplySnapshot | pkg/groupsync/groupsync.go:253-315 | merges all, enforces once if anything was new, lists the changed ids sorted |
| GroupStore.Store.MigrateKey | pkg/groupsync/groupsync.go:317-375 | for an old name that is no node kind: renames in every tree, enforces if any changed, lists the changed ids sorted |
| GroupStore.Store.RenameEverywhere | pkg/groupsync/groupsync.go:325-354 | for an old name that is no node kind the renaming loop rewrites every tree and collects exactly the changed ids |
| GroupStore.Store.CutEverywhere | pkg/groupsync/groupsync.go:567-598 | the first pass computes cut records and prior values without storing them |
| GroupStore.Store.StoreCut | pkg/groupsync/groupsync.go:604-623 | the second pass stores them and tombstones those below two keys |
| GroupStore.Store.RemoveSessionKey | pkg/groupsync/groupsync.go:552-643 | the key is pruned everywhere and the report is exactly what changed |
| GroupStore.Store.Reconcile | pkg/groupsync/groupsync.go:656-733 | gone keys are pruned, membership enforced, the report is exactly what changed |
| KittyStream.ScanSplit | pkg/pty/kittytranscode.go:25-78 | scanning in two parts, carry first, is scanning at once |
| KittyStream.ChunkingIrrelevant | pkg/pty/kittytranscode.go:25-78 | for any chunks, outputs and carry are those of the whole stream, for any replacement function |
| KittyStream.SameStreamSameOutput | pkg/pty/kittytranscode.go:25-78 | two ways of cutting the same stream give the same output and carry |
| KittyStream.NothingLost | pkg/pty/kittytranscode.go:25-78 | with the identity replacement, output plus carry is the input |
| KittyStream.ScanText | pkg/pty/kittytranscode.go:38-63 | text without a command passes through but for a partial intro at its end |
| KittyStream.ScanCommand | pkg/pty/kittytranscode.go:66-75 | a complete command after text is replaced in place and scanning resumes behind it |
| KittyStream.ScanOpen | pkg/pty/kittytranscode.go:66-71 | an unterminated command is carried, the text before it emitted |
| KittyStream.BytesHasAPC | pkg/pty/kittytranscode.go:80-87 | finds an intro iff there is one |
| KittyStream.BytesHasPartialAPC | pkg/pty/kittytranscode.go:89-94 | true iff the bytes end in the start of an intro |
| KittyStream.KittyTerminator | pkg/pty/kittytranscode.go:96-106 | position and length of the first terminator, or -1 |
| KittyStream.ScanStep | pkg/pty/kittytranscode.go:38-75 | one round of the loop keeps the outcome it is heading for |
| KittyStream.KittyTranscoder.FeedSlow | pkg/pty/kittytranscode.go:36-78 | the scanning loop computes output and carry of the data |
| KittyStream.KittyTranscoder.Feed | pkg/pty/kittytranscode.go:25-35 | output and carry are those of carry plus chunk, on the fast path too |
| Base64.Encode | pkg/pty/kittytranscode.go:216-217 | whole quartets of printable characters without separators or control bytes |
| Base64.DecodeEncode | pkg/pty/kittytranscode.go:216-217 | decoding an encoding returns the data |
| Base64.Vectors | pkg/pty/kittytranscode.go:216-217 | test vectors of section 10 of RFC 4648 |
| Base64.Alphabet | pkg/pty/kittytranscode.go:216-217 | the alphabet of section 4 of RFC 4648 |
| KittyCommands.KeptMeaning | pkg/pty/kittytranscode.go:182-204 | the rewritten control reads direct medium, no size, offset or chunk mark, all else as before |
| KittyCommands.KeptOthers | pkg/pty/kittytranscode.go:182-204 | all other pairs stay as they are and in order, those without a key among them |
| KittyCommands.SplitJoin | pkg/pty/kittytranscode.go:183-203 | splitting undoes joining for parts without commas |
| KittyCommands.RewriteControl | pkg/pty/kittytranscode.go:182-204 | the loop joins exactly the kept pairs and reports whether a medium was there |
| KittyCommands.BuiltCommand | pkg/pty/kittytranscode.go:206-214 | a built command scans as one command whose control and payload read back |
| KittyCommands.KittyDataCommands | pkg/pty/kittytranscode.go:216-238 | the block loop emits the commands of the transmission one after the other |
| KittyCommands.ContinuationCarries | pkg/pty/kittytranscode.go:224-236 | later blocks carry the rest in payloads within the limit, marked 1 and last 0 |
| KittyCommands.DataCommandsCarry | pkg/pty/kittytranscode.go:216-238 | payloads of at most 4096 bytes that concatenate to the base64 text of the data, marks exactly with several commands |
| KittyCommands.CommandsInConcat | pkg/pty/kittytranscode.go:66-75 | scanning concatenated commands finds exactly those and leaves nothing over |
| KittyCommands.TranscodedImage | pkg/pty/kittytranscode.go:108-158 | from a scanned command to the commands a scan of its replacement finds: their payloads are the base64 text of the file and decode to it |
| KittyCommands.TranscodeChangesIff | pkg/pty/kittytranscode.go:108-158 | a command is changed iff it has a payload, its medium is a file, and it is a query or transmits a file that can be read |
| KittyCommands.DirectStreamPasses | pkg/pty/kittytranscode.go:124-129 | a stream none of whose commands names a file passes through byte for byte |
| KittyCommands.TranscodedQuery | pkg/pty/kittytranscode.go:131-138 | a query keeps its payload, its terminator and every pair but the medium, which reads direct |
| RingBuffer.OverwriteOldest | pkg/pty/daemon.go:293-311 | the wrapped overwrite drops the oldest bytes and appends the new ones |
| RingBuffer.WriteMeaning | pkg/pty/daemon.go:258-270 | the two parts of a write add up to the last capacity bytes written |
| RingBuffer.Ring.PutAt | pkg/pty/daemon.go:273-288 | at most two block copies place the block round the end |
| RingBuffer.Ring.Fill | pkg/pty/daemon.go:271-289 | filling free space appends |
| RingBuffer.Ring.Overwrite | pkg/pty/daemon.go:295-311 | overwriting a full buffer drops as many oldest bytes as it appends |
| RingBuffer.Ring.Write | pkg/pty/daemon.go:243-312 | contents are the last capacity bytes ever written; a non-full buffer starts at 0 |
| RingBuffer.Ring.Snapshot | pkg/pty/daemon.go:314-334 | the last min(capacity, total) bytes written |
| RingBuffer.TailOf | pkg/pty/daemon.go:362-376 | the two-copy tail is the last bytes in order |
| RingBuffer.Ring.SnapshotTail | pkg/pty/daemon.go:336-377 | the last min(m, size) of those |
| FrameCodec.ReadFrame | pkg/pty/daemon_client.go:84-103 | one frame, or that the stream is short or the length unacceptable |
| FrameCodec.BigEndian | pkg/pty/daemon.go:637-644 | the length has its most significant byte first |
| FrameCodec.ReadFrames | pkg/pty/daemon_client.go:82-117 | the reading loop takes the frames of the stream up to where it stops |
| FrameCodec.DecodeEncodeAll | pkg/pty/daemon.go:637-644 | any list of frames within the limit is read back, up to the first close |
| FrameCodec.CutDeliversPrefix | pkg/pty/daemon_client.go:82-117 | a stream cut anywhere delivers exactly the frames that arrived in full |
| FrameCodec.RoundTripIffFits | pkg/pty/daemon.go:637-644 | a frame is read back exactly when its payload is within the limit |
| ClientBuffers.OnlyOldestDiscardedIff | pkg/pty/daemon_client.go:119-154 | an append keeps the last bytes that fit exactly when all fits or the new data alone fills the buffer |
| ClientBuffers.FullBufferGivenUp | pkg/pty/daemon_client.go:123-130 | one byte more than fits leaves that byte alone |
| ClientBuffers.DaemonSession.AppendReplay | pkg/pty/daemon_client.go:121-136 | the replay buffer takes the data, given up first if it would overflow |
| ClientBuffers.DaemonSession.AppendLive | pkg/pty/daemon_client.go:140-154 | the same for the live buffer |
| ClientBuffers.StepsConserve | pkg/pty/daemon_client.go:119-229 | every arrival and read keeps the account of delivered, buffered and given-up bytes |
| ClientBuffers.BytesInOrder | pkg/pty/daemon_client.go:119-229 | bytes of each kind are delivered in order, all of them iff no arrival overflowed; one mark at most, only after a replay |
| ClientBuffers.ReadAnswered | pkg/pty/daemon_client.go:200-229 | a read is answered with bytes, the mark or the end unless there is nothing to hand out, and then it waits |
| ClientBuffers.WakeAnswered | pkg/pty/daemon_client.go:215-228 | a read that waited is answered with live bytes, else with the end |
| ClientBuffers.EndStays | pkg/pty/daemon_client.go:156-162 | once the connection has ended it stays so |
| ClientBuffers.ReplayFirstIff | pkg/pty/daemon_client.go:193-229 | replay, one mark, live, while replay frames come in time; one more frame leaves that standing exactly when it comes in time |
| ClientBuffers.LateReplayBreaksOrder | pkg/pty/daemon_client.go:200-229 | after a late replay frame a continuation of at most three steps breaks the order |
| CaptureTail.ReadCapture | pkg/pty/registry.go:965-1039 | what is kept of the first frame of the stream and which cleaning it gets, or why there is nothing |
| CaptureTail.WholeBufferIff | pkg/pty/registry.go:1010-1038 | the whole buffer is captured as promised exactly under this condition on the window |
| CaptureTail.BoundedAnswerIff | pkg/pty/daemon.go:567-578 | the bounded answer exactly under the same, so both keep the same bytes and get the same cleaning |
| CaptureTail.StepsKeepInv | pkg/pty/daemon.go:502-583 | every step of daemon and output keeps the first frame and what it was made from |
| CaptureTail.RingIsLast | pkg/pty/daemon.go:425-430 | in every run the buffer is the last of what it held at first and of the output since |
| CaptureTail.ClientIsServed | pkg/pty/daemon.go:520-582 | in every run a client whose query was answered, or that was greeted on a session with a buffer, has a frame to read |
| CaptureTail.CaptureIsTail | pkg/pty/registry.go:965-1039 | in every run a replay that comes first is captured as the last bytes of the buffer at that moment, for any window below 4 GiB |
| CaptureTail.WindowIff | pkg/pty/registry.go:982-1038 | in every run of every buffer exactly for these windows |
| CaptureTail.WrongCleaning | pkg/pty/registry.go:1035-1038 | a run in which a complete buffer is cleaned as one that starts mid-line |
| CaptureTail.NeverRefusedIff | pkg/pty/daemon.go:502-529 | the capture cannot fail on an unexpected frame exactly once a replay is queued first |
| CaptureTail.RefusedIffOvertaken | pkg/pty/daemon.go:502-529 | in every run the capture is refused iff output was broadcast to the client while its wire was empty |
| Coalescer.OutputCoalescer.Append | pkg/ws/coalescer.go:157-181 | the chunk loop refines its recursive form |
| Coalescer.FlushCarries | pkg/ws/coalescer.go:148-155 | a flush moves the buffer to the wire or leaves a prefix |
| Coalescer.AppendChunkCarries | pkg/ws/coalescer.go:157-181 | a chunk is added whole to wire and buffer, or the wire holds a prefix; the buffer stays below the limit |
| Coalescer.ProcessControlCarries | pkg/ws/coalescer.go:183-194 | a control frame is written last, with the buffer empty |
| Coalescer.StepsKeepInv | pkg/ws/coalescer.go:196-290 | every case of every select, and every sender, keeps the invariant |
| Coalescer.OutputConserved | pkg/ws/coalescer.go:142-308 | conservation, frame sizes, control order and completeness in every run |
| Coalescer.ControlsConserved | pkg/ws/coalescer.go:183-290 | in every run without a failed write the control frames written and waiting are exactly those sent, in order, and no pong is lost |
| Coalescer.FailureNoted | pkg/ws/coalescer.go:196-290 | in every run a failed write is noted unless the loop is on its way out |
| Coalescer.FailureEndsOutput | pkg/ws/coalescer.go:196-209 | once the loop is back at the top after a failure, no output and no control frame is written any more |
| Coalescer.TimerFlushes | pkg/ws/coalescer.go:277-280 | when the quiet window runs out the buffer goes to the wire |
| Coalescer.PriorityKept | pkg/ws/coalescer.go:196-252 | pongs come before output, waiting output before control frames, and the loop blocks with no control frame waiting |
| Coalescer.EndsWithNothingWaiting | pkg/ws/coalescer.go:215-232 | without a failure the loop ends with nothing left to write |
| Coalescer.ClosedForGood | pkg/ws/coalescer.go:126-132 | after closing no more output is accepted |
| Coalescer.LoopGoesOn | pkg/ws/coalescer.go:196-290 | the loop can always go on until it has ended, waiting for the senders only after a failure |
| Coalescer.ClosedLoopEnds | pkg/ws/coalescer.go:196-290 | once closed every step of the loop brings its end closer |
| Coalescer.RecoveringLinkLosesBytes | pkg/ws/coalescer.go:205-239 | every connection that recovers has a run in which the wire is no prefix of the output |
| Coalescer.PrefixIffSticky | pkg/ws/coalescer.go:142-308 | the wire is a prefix of the output in every run exactly when write failures stay |
| StreamRegistry.LockedRegistry.Register | pkg/peer/streamreg.go:124-160 | the locked section of Register takes its step |
| StreamRegistry.LockedRegistry.RemoveWaiter | pkg/peer/streamreg.go:277-295 | the filtering loop drops exactly this waiter |
| StreamRegistry.DropWaiterKeeps | pkg/peer/streamreg.go:284-289 | the other waiters stay, in order |
| StreamRegistry.StepsKeepInv | pkg/peer/streamreg.go:115-295 | every locked section and channel operation keeps the invariant |
| StreamRegistry.RendezvousSafe | pkg/peer/streamreg.go:115-295 | one win per token by the named peer, dead tokens without waiters, no pending stream beside its waiter, no channel fault |
| StreamRegistry.RegisterMeetsWaiter | pkg/peer/streamreg.go:131-156 | a stream meets a waiter of its peer if there is one, else it is stored |
| StreamRegistry.ClaimGetsStream | pkg/peer/streamreg.go:176-202 | a claim by the named peer wins exactly the stored stream and uses up its token; any other peer changes nothing |
| StreamRegistry.ClaimElse | pkg/peer/streamreg.go:176-207 | a claim under a dead token is turned away, one that finds no stream waits behind the others |
| StreamRegistry.DeadTokenTakesNone | pkg/peer/streamreg.go:115-128 | a dead token takes no stream |
| StreamRegistry.StoredStays | pkg/peer/streamreg.go:115-295 | a stored stream stays until its peer claims it, its own timer runs out or another is stored over it |
| StreamRegistry.ExpireTakesOut | pkg/peer/streamreg.go:252-275 | a timer takes out its own entry with the token's waiters, and nothing else |
| StreamDelivery.StepsKeepDelivery | pkg/peer/streamreg.go:115-295 | every step keeps matched streams on their way to claims that still wait |
| StreamDelivery.MatchedIsWonIffAnswered | pkg/peer/streamreg.go:209-232 | in every run a matched stream is won exactly when its claim is answered, and on its way while that waits |
| StreamDelivery.CanWinIff | pkg/peer/streamreg.go:209-232 | a matched stream can still be won exactly when its claim has not given up |
| StreamDelivery.MatchedAndLost | pkg/peer/streamreg.go:225-230 | a run in which a stream is matched to a claim that has timed out |
| StreamDelivery.DeadTokenNeverWon | pkg/peer/streamreg.go:176-181 | in every run a token that died unclaimed is never won |
| StreamDelivery.NoClaimForgotten | pkg/peer/streamreg.go:115-295 | in every run a waiting claim is queued, or its channel is still to be used, or is closed |
| Supervisor.StepsKeepInv | pkg/wikilite/supervisor.go:166-206 | every step of loop, installer and child keeps the invariant |
| Supervisor.SwapIsChildFree | pkg/wikilite/supervisor.go:158-206 | parked means no child; from an early return of pause until resume none exists or can start |
| Supervisor.LateSwapSafeIff | pkg/wikilite/supervisor.go:191-197 | a swap past the deadline is child-free until resume exactly when there is no child and none on its way |
| Supervisor.LateSwapNoneAliveIff | pkg/wikilite/supervisor.go:191-197 | no child runs beside a late swap until resume exactly when none is running and none on its way |
| Supervisor.LateSwapMeetsChild | pkg/wikilite/supervisor.go:284-346 | from any other state at most three steps lead to a child beside the swap |
| Supervisor.LateSwapReached | pkg/wikilite/supervisor.go:158-197 | a live child at the deadline is reachable |
| Supervisor.PausedLoopAdvances | pkg/wikilite/supervisor.go:284-346 | while paused every loop step brings it closer to parking |
| Supervisor.LoopNeverStuck | pkg/wikilite/supervisor.go:269-440 | such a step exists until it is parked, gone, or waiting for a live child |
| Supervisor.UnpausedGetsChild | pkg/wikilite/supervisor.go:269-440 | left alone with an install in place, some step brings the loop closer to a running child from wherever it is |
| Supervisor.GoneOnlyCancelled | pkg/wikilite/supervisor.go:269-440 | in every run the loop ends only when cancelled |
| Supervisor.CancelStays | pkg/wikilite/supervisor.go:269-440 | cancellation is for good |
| Supervisor.CancelledCanEnd | pkg/wikilite/supervisor.go:269-440 | a cancelled loop can always end |
| Supervisor.CancelledStartEnds | pkg/wikilite/supervisor.go:365-402 | a start that is cancelled leads to the end without another attempt |
| Supervisor.FailedStartBacksOff | pkg/wikilite/supervisor.go:304-389 | in every run a failed start is followed by a backoff before anything else |
| Supervisor.AfterRun | pkg/wikilite/supervisor.go:403-440 | after a run the loop backs off, or goes to its gate when paused, or ends when cancelled |
| Supervisor.InstallGoesThrough | pkg/wikilite/supervisor.go:158-206 | with the loop parked pause returns early and the install leaves all as it was |
| InstallSwap.StepsKeepInv | pkg/wikilite/install.go:233-274 | every step and crash keeps a complete install recoverable, if no removal is at work when live is moved aside |
| InstallSwap.AlwaysRecoverable | pkg/wikilite/install.go:92-108 | over any number of installs and crashes, under that condition, recovery finds a complete install |
| InstallSwap.OldOrNew | pkg/wikilite/install.go:233-274 | each step changes the install in force only if it is the rename that moves the staged one in, whatever a removal does meanwhile |
| InstallSwap.CommitLeavesOldOrNew | pkg/wikilite/install.go:233-274 | stopping Commit anywhere leaves the old or the new install |
| InstallSwap.CommitInstalls | pkg/wikilite/install.go:233-274 | when the package staged as a version goes in, that version is live, whatever came in between |
| InstallSwap.CommitSucceeds | pkg/wikilite/install.go:233-274 | nothing hindering it, Commit installs the staged package and the removal leaves nothing else |
| InstallSwap.FailedSwapRestores | pkg/wikilite/install.go:262-267 | a failed rename puts the install moved aside back |
| InstallSwap.BootHasInstall | pkg/wikilite/install.go:92-108 | after a crash at any point the machine comes up with a complete install |
| InstallSwap.RenamesMove | pkg/wikilite/install.go:95-108 | renames move directories about, they neither copy nor lose one |
| InstallSwap.StagingApart | pkg/wikilite/install.go:119-218 | staging leaves the install and its backup alone, and leaves a complete package or none |
| InstallSwap.AsideSafeIff | pkg/wikilite/install.go:249-260 | moving live aside is safe in every continuation exactly when no removal is at work |
| InstallSwap.BeginSafeIff | pkg/wikilite/install.go:269-271 | beginning a Commit over a healthy install is safe in every continuation exactly when the last removal has finished |
| InstallSwap.OverlapLosesInstall | pkg/wikilite/install.go:269-271 | from any overlapping Commit a run loses the install |
| InstallSwap.OverlapReached | pkg/wikilite/install.go:269-271 | a run from one install to an overlapping Commit |
| Watch.StepsKeepInv | pkg/pty/registry.go:340-582 | every step of watch, stop and process keeps the invariant |
| Watch.CallbacksOrdered | pkg/pty/registry.go:328-393 | callbacks alternate, an exit is last, unique and true, and none is left out before stop |
| Watch.DeathIsReported | pkg/pty/registry.go:424-519 | in every run a process found dead at any of the three checks is reported as exited, unless stop comes first |
| Watch.DueExitIsNext | pkg/pty/registry.go:363-378 | the next step of the goroutine then makes the report |
| Watch.LiveProcessGoesOn | pkg/pty/registry.go:424-519 | a live process is not: the first two checks report an unreachable session, the third redials |
| Watch.FirstConnectionIsRead | pkg/pty/registry.go:404-470 | the first connection is read from without a report, frame after frame |
| Watch.ReturnIsReported | pkg/pty/registry.go:485-550 | a session that comes back is reported reachable and read from again |
| Watch.DeathIsFound | pkg/pty/registry.go:404-550 | a process that died is found out at the next failure to dial or read, and its exit reported |
| Watch.StopEndsWatch | pkg/pty/registry.go:404-579 | while stop waits for the goroutine, some step of that brings its end closer |
| Watch.StopGoesOn | pkg/pty/registry.go:552-579 | stop goes on step by step and waits for nothing else |
| Watch.StopIsFinal | pkg/pty/registry.go:552-579 | once stop returned, nothing runs, no connection is open, no callback follows |
| Watch.SuppressedIsSilent | pkg/pty/registry.go:363-393 | from the suppression on no callback is admitted |
| Limiter.Limiter.Admit | pkg/auth/limiter.go:68-104 | the section under the first lock updates the bucket and answers |
| Limiter.Limiter.Allow | pkg/auth/limiter.go:56-105 | that section, then the eviction under a second lock if the request was allowed |
| Limiter.Limiter.MaybeCleanup | pkg/auth/limiter.go:107-115 | exactly the idle buckets are dropped |
| Limiter.SweepExact | pkg/auth/limiter.go:107-115 | after an eviction exactly the keys with a request in the last fifteen minutes are remembered |
| Limiter.TokensBounded | pkg/auth/limiter.go:80-92 | tokens stay between 0 and the capacity in every run |
| Limiter.EvictionHarmless | pkg/auth/limiter.go:56-58 | with evictions at any points and lagging by any time, every answer is that of a limiter that never evicts |
| Limiter.RateBound | pkg/auth/limiter.go:24-35 | any stretch of a run admits at most capacity plus what accrues, per key |
| Limiter.BurstAllowed | pkg/auth/limiter.go:30-35 | a full bucket lets exactly its capacity through at once, ten for login and five for the others |
| Limiter.OthersUnlimited | pkg/auth/limiter.go:60-63 | other categories are not limited |
| Limiter.PacedRequestAllowed | pkg/auth/limiter.go:24-35 | a request paced at the limit's rate is allowed |
| Limiter.RetrySufficesIff | pkg/auth/limiter.go:95-104 | the advertised wait suffices exactly when the need is at most a second or whole seconds |
| Limiter.RetryTooShort | pkg/auth/limiter.go:95-104 | a run of twelve logins in which it does not |
| ArtifactLru.StoreEntry | pkg/toolevents/tracker.go:563-600 | one entry is refreshed and moved to the end, or appended and the list cut |
| ArtifactLru.Tracker.StoreArtifacts | pkg/toolevents/tracker.go:554-607 | the session's list after all stores; other sessions untouched |
| ArtifactLru.LastOccurrencesNext | pkg/toolevents/tracker.go:585-588 | storing again moves a path to the end of the distinct ones |
| ArtifactLru.CallsCompose | pkg/toolevents/tracker.go:554-607 | successive calls store what one call with all entries that have a path stores |
| ArtifactLru.ExactLru | pkg/toolevents/tracker.go:554-607 | after any calls the paths are the hundred most recently stored distinct ones in order of last store |
| ArtifactLru.EntriesUpToDate | pkg/toolevents/tracker.go:569-584 | each entry carries the values of the last store of its path |
| ArtifactLru.RefreshKeepsTexts | pkg/toolevents/tracker.go:569-588 | a path stored again moves to the end with new size and time; a text is replaced only by a nonempty one |
| UniqueName.AtoiItoa | pkg/sessionlaunch/service.go:415-416 | numbering is injective: a number reads back |
| UniqueName.FirstCandidates | pkg/sessionlaunch/service.go:415-416 | the name itself, then with numbers behind a dash |
| UniqueName.TrimMeaning | pkg/sessionlaunch/service.go:397-404 | trimming takes white space off both ends and nothing else |
| UniqueName.TakenCandidates | pkg/sessionlaunch/service.go:415-420 | pigeonhole: n taken candidates need n names in use |
| UniqueName.EnsureUniqueSessionName | pkg/sessionlaunch/service.go:396-421 | the first free candidate, within one more than there are existing names |

## Left out

- JSON, saving to disk, rollback of failed saves and `Restore`: trees are datatypes and saves succeed.
- GroupStore.Store.MigrateKey: the store holds panes, so the old names `leaf` and `split`, which turn them into something else, are excluded here; `PaneNodes` has what the source does with them. The same goes for `GroupStore.Store.RenameEverywhere`.
- GroupRuns.RunsStayGood: `GroupRuns.Event.Proper` excludes renames of those two names, after which membership is no longer exclusive (`PaneNodes.SplitRenameShares`).
- PaneTree.RemoveLeafMeaning: the tree is a value; the source rewrites the nodes of a tree it has just decoded and nobody else sees, so update in place is not captured. Malformed trees are modelled only as far as renames make them (`PaneNodes`).
- GroupStore.Store.Enforce: needs a clock past the zero time, as `time.Now` gives; with a zero stamp nothing would be tombstoned.
- Base64.DecodeEncode: the decoder is on canonical input; the lenient treatment of line breaks in Go's decoder is not modelled.
- KittyCommands.TranscodedImage: decoding the path and reading the file, with its limits, are one function parameter.
- Coalescer.OutputConserved: timers may fire whenever the loop listens to them; acknowledgements of control frames and write times are not modelled.
- StreamRegistry.RendezvousSafe: delivery of the resolved connection (`Resolve`, `WaitResolved`) is not modelled; timers and contexts may end a wait at any time.
- Supervisor.SwapIsChildFree: one install at a time, as the `installing` flag ensures; signals only matter through the child's exit; processes the child leaves behind are not modelled.
- Watch.CallbacksOrdered: callbacks do not call stop themselves; frame contents are discarded as in the source.
- Limiter.RateBound: over real arithmetic; floating-point rounding is not modelled. Requests are assumed to reach the lock in the order of their clock readings, which the code does not enforce: it reads the clock before locking.
- InstallSwap.AlwaysRecoverable: assumes no background removal is at work when the live directory is moved aside; `InstallSwap.AsideSafeIff` shows the assumption is needed.
- CaptureTail.CaptureIsTail: read deadlines and the cleaning of the captured text are not modelled.
- ClientBuffers.BytesInOrder: one reader using `ReadFramed`; the flattened `Read` is not modelled.
- The remaining query paths of the registry, name sanitising and artifact eviction by path: they would add easy members only.
- The concurrency of the group store, transcoder, ring buffer and tracker: each operation runs under one lock and is one step. The limiter's two locked sections are two steps.
- HTTP and WebSocket handlers, PTYs, processes, systemd, cryptography, git, the web client and the preferences, ordering and port-forwarding stores.
