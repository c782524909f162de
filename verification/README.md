# Verified model of go-execution-abci

A Dafny 4.11 model of the parts of go-execution-abci that carry protocol state, with proofs.
`dafny verify dfyconfig.toml` checks everything.

Code that changes state in the Go program is imperative here: a keeper, the adapter and the ID
allocator are classes whose methods are proved against functions on a value of their stores
(`...Spec`), bitmaps and encoding buffers are arrays written in place, loops are loops. What the
program promises is then proved about those functions, over every input or every run.

| files | what they model |
|---|---|
| `Migration.dfy`, `MigrationWindow.dfy` | the rollkitmngr keeper: change sets of the migration window, whole windows from any starting powers |
| `Bits.dfy`, `Bitmap.dfy` | bitwise operators on unsigned integers; bitmaps as sets of indices |
| `Decimal.dfy`, `Network.dfy`, `Quorum.dfy`, `NetworkRuns.dfy`, `NetworkRules.dfy`, `Epochs.dfy` | the network module: fixed-point quorums, messages, end blocker, whole runs, who may do what, epoch schedule |
| `Genesis.dfy`, `GenesisRuns.dfy` | genesis validation, import and export |
| `Varint.dfy`, `Wire.dfy`, `Codec.dfy`, `Decoder.dfy`, `CodecRuns.dfy`, `WireLanguage.dfy` | the protobuf codec of `Params`, `AttestationBitmap` and `ValidatorIndex`, and the exact language it accepts |
| `EventQueue.dfy`, `EventRuns.dfy`, `EventContents.dfy` | the adapter's stack of unpublished block events: what is released, and what it then reads like |
| `BlockChain.dfy` | saved block IDs and the headers and commits the RPC server rebuilds |
| `PeerIds.dfy` | the mempool's peer ID allocator |

Results that a reader of the code may not expect:

- The chunk slices of the smoothed migration panic for most small validator sets. With n keys to
  move they are all in bounds exactly when `29 * ceil(n / 30) <= n`; every n from 812 on is safe,
  811 is not, and one key panics at step 2. `WholeWindow` says the window completes exactly
  when the bound holds for removals and additions and every target and validator key is readable.
- A migration may be stored with any start height not yet passed. PreBlocker computes the halting
  height in uint64 arithmetic, so a start close enough to 2^64 can halt the chain at a height below 32
  before anything has moved, and every other start from 2^63 on never opens the window and never
  halts (`Window`, `FarMigration`, `EarlyHalt`).
- The closing change set repeats every removal of the window, so it names absent validators
  unless there was nobody to remove (`ClosingRepeatsRemovals`, with thirty leaving validators in
  `ClosingNamesAbsent`).
- A validator whose index lies beyond the bitmap attests successfully without being counted, and
  may repeat itself (`AttestCounts`, `RepeatRejected` give the exact condition,
  `UncountedAttestation` an input).
- Rebuilding the index at an epoch end reinterprets stored bitmaps. Counted bits stay backed by
  votes exactly when no indexed validator moves (`RebuildKeepsBacked`), and confirmed heights stay
  confirmed exactly when no key loses power (`RebuildKeepsConfirmed`); otherwise a height may lose its
  soft confirmation, and a bit may pass to somebody who never voted (`RebuildFlips`).
- Genesis validation bounds no bitmap. Beyond 8192 bytes several positions share one 16-bit key and a
  power is counted twice. Then the state exported may not be a valid genesis (`OverlongBitmap`,
  `ReachableExportsValid` has the exact condition), two quorums may share nobody (`OverlongQuorums`;
  they do share somebody when no two positions of a bitmap share a key), and the sum may wrap around
  so that one more attestation unconfirms a height (`OverlongUnconfirmed`, `AttestKeepsConfirmed` has
  the exact condition).
- A block that had to wait for publication loses its events: the queue keeps a reference to the
  response whose events are cleared before it is stored, so from then on both the announced and
  the stored events are empty, in every run (`WaitingLosesEvents`, `EventLost`). The comment on `SetFinal` promises the
  queued events in order. Blocks leave in order exactly when no publishable block is executed
  while others wait (`OrderKept`, `OrderLost`).
- A cancelled context drops the block it was met at, and a failing store or bus fires blocks that
  go on waiting and are fired again (`EventsAccounted`, `BlockDropped`, `BlockFiredTwice`).
- Genesis import cuts indices to 16 bits and later attestations of one height replace earlier
  ones; `GenesisRoundTrip` shows that these two are the only losses, `RoundTripLosses` an input for each.
- Reserving an ID for a peer that already has one leaks the old ID for good; nothing else does
  (`HistoryTight`, `RereservingExhausts`).

Modelling conventions. Integers carry their Go width: conversions, wrap-around and truncation are
written out (`Common.ToUint64`, `Uint64`, `Uint16`, `ToInt32`). Run-time panics are outcomes
(`SlicePanic`, `KeyPanic`, `Panic`, `None`). The staking module's answers, the publication filter, cancelled
contexts and failing stores or event buses are parameters of the methods. Public keys and hashes
are opaque values; hash functions are parameters. Collections are maps and sets, and a walk over
one comes in an arbitrary order given as a parameter. In the codec, `v & 0x7f | 0x80` is written
as arithmetic, and the decoder's `|=` is the bitwise `Bits.Or`, proved to add. The wire format is
that of the Protocol Buffers Encoding specification, sections "Base 128 Varints" and "Message
Structure".

## Model

| member | source | states |
|---|---|---|
| Migration.MigrateToSequencer | modules/rollkitmngr/keeper/migration.go:52-76 | the loop's change set is: power 0 for every validator that is not the sequencer, power 1 for the sequencer; an unreadable sequencer key is an error, an unreadable validator key a panic |
| Migration.MigrateToAttesters | modules/rollkitmngr/keeper/migration.go:80-113 | the same for attesters; an unreadable key among the removed validators panics first, then one unreadable attester key fails the whole change set |
| Migration.Slice | modules/rollkitmngr/keeper/migration.go:147-150 | the k-th share of a list, or the panic of a slice whose start lies behind its end |
| Migration.SmoothToSequencer | modules/rollkitmngr/keeper/migration.go:137-153 | one step's removals on the sequencer path, with both panics |
| Migration.SmoothToAttesters | modules/rollkitmngr/keeper/migration.go:154-197 | one step's removals and additions on the attester path, with the panics and unreadable keys in source order |
| Migration.Equalise | modules/rollkitmngr/keeper/migration.go:207-229 | the step-0 pass adds power 1 for exactly the validators the change set does not mention, and fails when any validator key is unreadable |
| Migration.Keeper.MigrateNow | modules/rollkitmngr/keeper/migration.go:20-48 | whole new store and result: the sequencer is stored only when the change set could be built |
| Migration.Keeper.MigrateOver | modules/rollkitmngr/keeper/migration.go:118-232 | whole new store and result of one smoothed or closing step; a failing step-0 pass has already counted the step |
| Migration.Keeper.EndBlock | modules/rollkitmngr/keeper/abci.go:46-71 | whole new store and result, outside and inside the window, with and without IBC |
| Migration.Keeper.PreBlocker | modules/rollkitmngr/keeper/abci.go:27-43 | halts at one above the end of the window, computed in uint64 arithmetic and unless that end is 0, and then forgets the migration |
| Migration.Keeper.MigrateToRollkit | modules/rollkitmngr/keeper/msg_server.go:24-45 | opens a migration exactly for the authority and a height not yet passed |
| MigrationWindow.Window | modules/rollkitmngr/keeper/keeper.go:97-119 | for every start height: when the window is open and the one height, if any, at which PreBlocker halts, wrap-around included |
| MigrationWindow.FarMigration | modules/rollkitmngr/keeper/abci.go:27-43 | with a start height no block reaches, any run of blocks does nothing except that it halts, migration removed, at a wrapped halting height it passes |
| MigrationWindow.EarlyHalt | modules/rollkitmngr/keeper/msg_server.go:24-45 | an input: start height 2^64 - 5 stored at height 20 halts the chain at block 26 with nobody moved |
| MigrationWindow.ChunkBound | modules/rollkitmngr/keeper/migration.go:147-150 | all slices are in bounds if and only if the last one is; always from 812 keys on |
| MigrationWindow.ChunkBoundIsSharp | modules/rollkitmngr/keeper/migration.go:147-150 | 811 keys panic, and one key panics at step 2 |
| MigrationWindow.ChunksPartition | modules/rollkitmngr/keeper/migration.go:176-186 | within the bound the chunks in order are the whole list |
| MigrationWindow.RemovalsExactly | modules/rollkitmngr/keeper/migration.go:137-168 | who leaves: exactly the validators that are no targets, every occurrence and in validator order |
| MigrationWindow.AdditionsExactly | modules/rollkitmngr/keeper/migration.go:169-175 | who comes: exactly the attesters that are no validators, every occurrence and in attester order |
| MigrationWindow.ChunkSchedule | modules/rollkitmngr/keeper/migration.go:147-150 | step k takes the next ceil(n / 30) keys of the list, from position k * ceil(n / 30) on, or what is left of them |
| MigrationWindow.StepUpdates | modules/rollkitmngr/keeper/migration.go:150-229 | the updates of a step one by one: its removals at power 0, its additions at power 1, then in step 0 everybody else at power 1 |
| MigrationWindow.ClosingUpdates | modules/rollkitmngr/keeper/migration.go:52-113 | the closing change set one by one: every removal, then every target at power 1, in order |
| MigrationWindow.FailuresExplained | modules/rollkitmngr/keeper/migration.go:52-197 | each failure of a step or of the closing change set names a slice out of bounds or an unreadable key of the right list |
| MigrationWindow.StepApplies | modules/rollkitmngr/keeper/migration.go:136-229 | applying step k to the set k steps left gives the set after k+1 steps, all at power 1, from arbitrary starting powers |
| MigrationWindow.BeforeClosing | modules/rollkitmngr/keeper/migration.go:118-134 | behind the last smoothed step the set is exactly the attesters, or the sequencer if it was a validator |
| MigrationWindow.FinalApplies | modules/rollkitmngr/keeper/migration.go:128-134 | the closing change set turns any set of old and target validators into exactly the targets at power 1 |
| MigrationWindow.MidMigration | modules/rollkitmngr/keeper/migration.go:118-232 | the chain after k blocks of the window, for every k: the exact set and store, or failure as soon as one step panics |
| MigrationWindow.WholeWindow | modules/rollkitmngr/keeper/abci.go:27-71 | at all heights blocks can have, the window ends in the target set, step removed and sequencer stored, and the next block halts, if and only if both bounds hold and all target and validator keys are readable |
| MigrationWindow.WindowWithoutIBC | modules/rollkitmngr/keeper/keeper.go:109-116 | without IBC the set is exactly the target after each of two blocks, an unreadable target or removed key fails the first, and the third block halts |
| MigrationWindow.QuietAfterHalt | modules/rollkitmngr/keeper/abci.go:34-39 | with the migration removed, no later block changes or halts anything |
| MigrationWindow.NeverEmpty | modules/rollkitmngr/keeper/migration.go:136-197 | on the way the set is empty if and only if a sequencer that is no validator waits and everybody has left |
| MigrationWindow.ChangeSetsDistinct | modules/rollkitmngr/keeper/migration.go:207-229 | every change set names a key at most once, the equalising pass included |
| MigrationWindow.FinalDistinctExactly | modules/rollkitmngr/keeper/migration.go:92-110 | the closing change set repeats a key if and only if an attester is listed twice |
| MigrationWindow.RemovalsNameMembers | modules/rollkitmngr/keeper/migration.go:150-183 | the smoothed steps remove current members only |
| MigrationWindow.ClosingRepeatsRemovals | modules/rollkitmngr/keeper/migration.go:128-134 | the closing change set removes members only if and only if nobody had to leave |
| MigrationWindow.ClosingNamesAbsent | modules/rollkitmngr/keeper/migration.go:128-134 | an input: a window that completes for thirty leaving validators removes absent ones in its last block |
| Bitmap.NewBitmap | modules/network/keeper/bitmap.go:16-19 | room for n bits, none set |
| Bitmap.SetBit | modules/network/keeper/bitmap.go:22-29 | in-place insertion of an index into the index set; outside the bitmap nothing happens |
| Bitmap.PopCount | modules/network/keeper/bitmap.go:42-48 | the cardinality of the index set |
| Bitmap.OR | modules/network/keeper/bitmap.go:51-59 | in-place bytewise or on the shared length, also when both are one slice |
| Bitmap.OrIsUnion | modules/network/keeper/bitmap.go:51-59 | OR is union, cut to the destination |
| Bitmap.AND | modules/network/keeper/bitmap.go:62-70 | in-place bytewise and on the shared length |
| Bitmap.AndIsIntersection | modules/network/keeper/bitmap.go:62-70 | AND is intersection on the shared length and keeps the rest of the destination |
| Bitmap.CountInRange | modules/network/keeper/bitmap.go:90-98 | the cardinality of the index set within [start, end) |
| Bitmap.WithBitInserts | modules/network/keeper/bitmap.go:22-39 | IsSet after SetBit is membership after insertion |
| Bitmap.Extensional | modules/network/keeper/bitmap.go:32-39 | a bitmap is determined by its length and index set |
| Decimal.RequiredPowerIsFloor | modules/network/keeper/keeper.go:249-250 | the decimal computation is floor(total * fraction) exactly; totals of 2^63 or more need nothing or panic, with the exact condition |
| Network.Keeper.BuildValidatorIndexMap | modules/network/keeper/keeper.go:166-197 | index and power maps after the numbering loop, in uint16 arithmetic |
| Network.Keeper.CalculateVotedPower | modules/network/keeper/keeper.go:217-230 | the sum over the index set in uint64 arithmetic, failing exactly when a member has no power |
| Network.Keeper.Attest | modules/network/keeper/msg_server.go:30-116 | whole new stores and result: checks, both bitmaps, the signature |
| Network.Keeper.JoinAttesterSet | modules/network/keeper/msg_server.go:120-157 | whole new stores and result: only bonded non-members join |
| Network.Keeper.LeaveAttesterSet | modules/network/keeper/msg_server.go:160-184 | whole new stores and result: only members leave |
| Network.Keeper.UpdateParams | modules/network/keeper/msg_server.go:187-210 | whole new stores and result: only the authority, only valid params |
| Network.Keeper.ProcessCheckpoint | modules/network/keeper/abci.go:42-84 | the attestation info filed for a checkpoint, or the error |
| Network.Keeper.ProcessEpochEnd | modules/network/keeper/abci.go:86-124 | the index is rebuilt unless the participation threshold cannot be read |
| Network.Keeper.EndBlocker | modules/network/keeper/abci.go:17-39 | checkpoint first, then the epoch end; an error stops it |
| Quorum.VotedPowerIsSum | modules/network/keeper/keeper.go:217-230 | for bitmaps whose positions have distinct 16-bit keys, as all of at most 8192 bytes have: the plain sum over positions and over keys, at most the whole table, failing if and only if a member has no power |
| Quorum.QuorumsMeet | modules/network/keeper/keeper.go:242-251 | two accepted bitmaps, neither with two positions on one key, share a validator of positive power when twice the required power exceeds the total |
| Quorum.QuorumIntersection | modules/network/keeper/keeper.go:242-251 | they do whenever (2 * fraction - 1) * total >= 2 |
| Quorum.QuorumsMayMiss | modules/network/keeper/keeper.go:242-251 | the bound is exact: otherwise two disjoint bitmaps are both accepted |
| Quorum.OverlongQuorums | modules/network/keeper/keeper.go:217-251 | an input: with two positions on one key, 10 of 30 counted twice and the other 20 are both two-thirds quorums and share nobody |
| NetworkRuns.AttestCounts | modules/network/keeper/msg_server.go:70-80 | a successful attestation adds exactly its bit and exactly its power, if and only if its index fits the bitmap |
| NetworkRules.AttestExactly | modules/network/keeper/msg_server.go:30-72 | with valid params an attestation is accepted if and only if it is for a checkpoint height, by a member of the attester set with an index whose position is not yet set |
| NetworkRules.AttestUnderAnyParams | modules/network/keeper/msg_server.go:30-72 | the same for every sign mode and epoch length |
| NetworkRules.AttestRejections | modules/network/keeper/msg_server.go:30-72 | a rejected attestation writes nothing and its error names what is wrong |
| NetworkRules.AttestEffect | modules/network/keeper/msg_server.go:74-116 | an accepted one writes the vote, one position for its height and one for the current epoch, and nothing else |
| NetworkRules.StartingBitmaps | modules/network/keeper/msg_server.go:55-66 | a height or epoch without a bitmap starts from an empty one with a bit for each bonded validator |
| NetworkRules.VotesFromAttesters | modules/network/keeper/msg_server.go:30-85 | every vote a run stores was cast in it by a then member of the attester set with an index, for a checkpoint height |
| NetworkRules.JoinExactly | modules/network/keeper/msg_server.go:120-157 | exactly bonded validators that are no members join, which adds them alone; each error names its reason |
| NetworkRules.LeaveExactly | modules/network/keeper/msg_server.go:160-184 | exactly members leave, which removes them alone |
| NetworkRules.UpdateParamsExactly | modules/network/keeper/msg_server.go:187-210 | exactly the authority sets params, to valid ones, and nothing else changes |
| NetworkRules.ParamsBounds | modules/network/types/params.go:68-165 | the bounds of every parameter in numbers |
| NetworkRules.RunMembers | modules/network/keeper/msg_server.go:120-184 | over every run the members are exactly those who were or joined and have not left since |
| NetworkRules.RunParams | modules/network/keeper/msg_server.go:187-210 | over every run the params are the last valid ones the authority set |
| NetworkRules.SoftConfirmedExactly | modules/network/keeper/keeper.go:255-273 | a height is confirmed if and only if it has a bitmap, every position has a power and their sum reaches floor(total * fraction); else false or the missing-power error |
| NetworkRules.EndBlockerExactly | modules/network/keeper/abci.go:17-84 | with valid params an end blocker fails if and only if the checkpoint of its height cannot be filed |
| NetworkRuns.UncountedAttestation | modules/network/keeper/msg_server.go:58-80 | an input: index 9 with a one-byte bitmap attests twice and sets no bit |
| NetworkRuns.RepeatRejected | modules/network/keeper/msg_server.go:70-72 | a repeat for the same height is rejected if and only if the index fits the bitmap |
| NetworkRuns.SoftConfirmationMonotone | modules/network/keeper/keeper.go:255-273 | no run of attester messages turns a soft confirmation from true to false, as long as the power of the positions counted and of all indexed validators together fits a uint64; bitmaps of at most 8192 bytes over a table that fits one qualify |
| NetworkRuns.AttestKeepsConfirmed | modules/network/keeper/keeper.go:217-273 | one attestation keeps a confirmed height confirmed if and only if the new sum fits a uint64 or what wrapping leaves of it is a quorum |
| NetworkRuns.OverlongUnconfirmed | modules/network/keeper/keeper.go:217-273 | an input: three positions on one key sum up to 2^64 - 1, one more attestation unconfirms the height |
| NetworkRuns.CheckpointAgrees | modules/network/keeper/abci.go:42-84 | for every bitmap, what a checkpoint files is what IsSoftConfirmed answers, and no other height is touched; the filed power is the plain sum and within the total when no keys are shared and the indexed powers are |
| NetworkRuns.RunBacked | modules/network/keeper/msg_server.go:76-85 | from a state in which every counted bit belongs to an indexed validator whose vote is stored, attester messages keep it so; an imported genesis stores no votes and need not start so |
| NetworkRuns.RebuildKeepsBacked | modules/network/keeper/keeper.go:166-197 | an index rebuild keeps every backed state backed if and only if each indexed validator keeps its position |
| NetworkRuns.RebuildKeepsConfirmed | modules/network/keeper/keeper.go:255-273 | a new power table leaves every height confirmed by a bitmap without shared keys confirmed, whatever the store and total, if and only if no key loses power, as far as a quorum of at most 2^63 - 1 can tell |
| NetworkRuns.RebuildFlips | modules/network/keeper/abci.go:86-124 | an input: an epoch end that renumbers the only voter unconfirms its height and hands its bit to another validator |
| NetworkRuns.EpochParticipation | modules/network/keeper/msg_server.go:87-105 | for every order of messages within an epoch its bitmap holds exactly the positions of the validators that attested; the index does not move |
| NetworkRuns.ParticipationCount | modules/network/keeper/abci.go:102-111 | the population count is the number of distinct validators that attested if and only if all their indices fit the epoch bitmap |
| Epochs.RangeIsEpoch | modules/network/keeper/grpc_query.go:92-93 | the reported range holds exactly the heights GetCurrentEpoch puts in the epoch |
| Epochs.RangesPartition | modules/network/keeper/grpc_query.go:92-93 | the ranges follow each other without gap or overlap from height 0 |
| Epochs.Schedule | modules/network/keeper/keeper.go:200-214 | checkpoints are exactly the first heights of epochs, epoch ends exactly the last |
| Epochs.EachEpochClosedOnce | modules/network/keeper/abci.go:28-37 | over consecutive heights every completed epoch is closed once, in order, and no other |
| Epochs.RebuildAtEpochEnd | modules/network/keeper/abci.go:28-37 | a successful end blocker renumbers the validators exactly at epoch ends |
| Genesis.Validate | modules/network/types/genesis.go:18-52 | succeeds if and only if params, count, addresses, indices, heights and powers are valid; each error names a real offence |
| Genesis.GenesisBounds | modules/network/types/genesis.go:18-52 | the bounds of a valid genesis in numbers |
| Genesis.InitGenesis | modules/network/genesis.go:13-47 | whole new stores of the import loops; marking a soft confirmation never fails |
| GenesisRuns.ImportExactly | modules/network/genesis.go:13-47 | what the store holds after an import: params, attesters equal to the indexed addresses, indices and powers, attestations, no votes and no epoch bitmaps |
| GenesisRuns.LastAttestationStays | modules/network/genesis.go:30-44 | of the attestations of one height the last one stays, with its bitmap |
| Genesis.SetSoftConfirmed | modules/network/genesis.go:88-104 | sets the flag of a stored height, and reports an absent one |
| Genesis.ExportGenesis | modules/network/genesis.go:50-85 | the exported lists in walk order, or the panic when an index has no power |
| GenesisRuns.BuildIndexNumbers | modules/network/keeper/keeper.go:183-195 | bonded validators with distinct operators are numbered in a row, injectively, with a power each |
| GenesisRuns.BuildIndexPlaces | modules/network/keeper/keeper.go:183-195 | each bonded validator is numbered by how many bonded ones precede it, and its own power is filed there |
| GenesisRuns.RunSound | modules/network/keeper/abci.go:17-39 | every run keeps params valid and indices injective, powered and fewer than 2^16 |
| GenesisRuns.ReachableExportsValid | modules/network/genesis.go:50-85 | from a valid genesis, indices below 2^16, after any run the export passes Validate if and only if no end blocker filed more voted power, summed over 16-bit keys, than the total |
| GenesisRuns.ShortExportsValid | modules/network/types/genesis.go:18-52 | with genesis bitmaps of at most 8192 bytes and indexed powers within the total every such export is valid |
| GenesisRuns.OverlongBitmap | modules/network/types/genesis.go:43-49 | an input: an 8193-byte bitmap in a valid genesis makes one end blocker file 2 of 1 power, and the export is invalid |
| GenesisRuns.GenesisRoundTrip | modules/network/genesis.go:13-85 | import then export gives the genesis back up to order if and only if indices fit 16 bits and heights are distinct |
| GenesisRuns.RoundTripLosses | modules/network/types/genesis.go:18-52 | two valid genesis files that do not come back: an index of 2^16, and a height listed twice |
| Varint.EncodeVarint | modules/network/types/types.pb.go:480-490 | the varint fills exactly sovTypes(v) bytes before the offset, nothing else changes |
| Varint.SovIsLength | modules/network/types/types.pb.go:561-563 | sovTypes is the number of bytes of the varint |
| Varint.DecodeVarint | modules/network/types/types.pb.go:573-586 | the shifting loop computes the value cut to the field's width, with the overflow and end-of-input errors |
| Varint.VarintRoundTrip | modules/network/types/types.pb.go:480-490 | decoding an encoded varint gives it back and leaves what follows |
| Varint.DecodesExactly | modules/network/types/types.pb.go:573-586 | a varint decodes if and only if it ends within ten bytes, to the sum of its 7-bit groups in 64 bits; otherwise overflow or end of input, with the exact condition |
| Varint.NegativesTakeTen | modules/network/types/types.pb.go:480-490 | sign-extended negative integers take ten bytes |
| Wire.Skip | modules/network/types/types.pb.go:1019-1096 | the skipping loop with its group depth, errors and indices beyond the input |
| Wire.SkipField | modules/network/types/types.pb.go:1019-1096 | skipping any well-formed field, nested groups included, ends right behind it |
| WireLanguage.SkipExactly | modules/network/types/types.pb.go:1019-1096 | the loop skips to a place inside the input if and only if one well-formed field ends there |
| Codec.SizeIsLength | modules/network/types/types.pb.go:491-559 | Size() is the number of encoded bytes, for all three messages |
| Codec.EncodedBytes | modules/network/types/types.pb.go:348-478 | the bytes of every message, tag by tag and in order |
| Codec.MarshalToSizedBuffer | modules/network/types/types.pb.go:348-478 | the backwards writer fills the last Size() bytes with the encoding and leaves the rest |
| Codec.Marshal | modules/network/types/types.pb.go:333-341 | a buffer of Size() bytes is filled without gap or overlap |
| Decoder.DecodeField | modules/network/types/types.pb.go:570-731 | every accepted field advances |
| Decoder.VarintMeaning | modules/network/types/types.pb.go:587-715 | what each varint field does to the message: its value modulo the width, a bool whether it is zero, no other field changed |
| Decoder.FieldRejections | modules/network/types/types.pb.go:588-604 | exactly when a field is turned away for an end-group tag, an illegal number or a wrong wire type |
| Decoder.SkipUnknown | modules/network/types/types.pb.go:717-730 | skipping an unknown field advances or fails |
| Decoder.Unmarshal | modules/network/types/types.pb.go:567-737 | the decoding loop, field by field, to the end of the input or an error |
| WireLanguage.AcceptsExactly | modules/network/types/types.pb.go:567-737 | Unmarshal accepts an input if and only if it is a concatenation of known fields of the expected wire type and well-formed unknown ones, and the result is what they assign in order |
| CodecRuns.RoundTrip | modules/network/types/types.pb.go:333-1018 | unmarshalling the marshalled bytes gives every message back, an empty bitmap as nil |
| CodecRuns.EncodingDetermines | modules/network/types/types.pb.go:348-478 | equal bytes mean equal messages up to an empty bitmap |
| CodecRuns.ConcatMerges | modules/network/types/types.pb.go:567-737 | decoding a concatenation is decoding the second part into the result of the first |
| CodecRuns.UnknownIgnored | modules/network/types/types.pb.go:717-736 | a well-formed unknown field between fields does not change the outcome |
| EventQueue.Adapter.ExecuteTxs | pkg/adapter/adapter.go:474-490 | publishable blocks are stored and fired, others stacked with their shared response cleared |
| EventQueue.Adapter.FireEvents | pkg/adapter/adapter.go:497-556 | the messages of a block in order, up to a failing bus |
| EventQueue.Adapter.SetFinal | pkg/adapter/adapter.go:690-735 | whole new stack, stored responses and bus for every interruption |
| EventRuns.ReleaseEnds | pkg/adapter/adapter.go:709-733 | the ways out of the loop in any weather: a cancelled context also drops its entry, an error keeps fired entries on the stack |
| EventRuns.SetFinalReleases | pkg/adapter/adapter.go:694-735 | an undisturbed call fires a prefix in height order, all at or below the persisted height, and leaves nothing releasable |
| EventRuns.EventsConserved | pkg/adapter/adapter.go:474-490 | over undisturbed runs at increasing heights fired plus stacked is executed, each block once, and the stack stays increasing |
| EventRuns.EventsAccounted | pkg/adapter/adapter.go:709-733 | over every run in any weather, per height: fired plus waiting plus dropped equals executed plus fired again, with the dropped and the repeated ones named call by call |
| EventContents.BlockDropped | pkg/adapter/adapter.go:712-733 | an input: a context cancelled at a waiting block drops it |
| EventContents.BlockFiredTwice | pkg/adapter/adapter.go:709-733 | an input: a bus that fails after the first message makes a block fire twice |
| EventRuns.OrderKept | pkg/adapter/adapter.go:687-689 | blocks leave in executed order if and only if none is fired past a waiting one |
| EventContents.OrderLost | pkg/adapter/adapter.go:474-490 | an input: a publishable block overtakes a waiting one |
| EventContents.WaitingLosesEvents | pkg/adapter/adapter.go:483-490 | over every run at increasing heights, in any weather: what is stored for a block is its own response if and only if it was publishable at once or had no events, and otherwise the store and every message for it carry no events |
| EventContents.CalmRunsComplete | pkg/adapter/adapter.go:474-556 | after undisturbed runs every executed block is stored; once fired its messages stand together on the bus, block, header, events, evidence, each transaction with its index and own result, validator updates, and no other message is about it |
| EventContents.MessageIsRead | pkg/adapter/adapter.go:497-556 | over every run at increasing heights, in any weather, each message about a block carries that block's header, events, evidence, or transaction with its own index and result |
| EventContents.UpdatesAreExecuted | pkg/adapter/adapter.go:548-553 | announced validator updates are those of an executed block |
| EventContents.RunStoredFirst | pkg/adapter/adapter.go:475-482 | over every run, in any weather, whatever is announced about a block was stored before |
| EventContents.EventLost | pkg/adapter/adapter.go:483-490 | an input: one waiting block with an event is released with none |
| BlockChain.Adapter.Execute | pkg/adapter/adapter.go:324-332 | the block ID saved for a height, or the error of a missing predecessor or proposer |
| BlockChain.RunAnchored | pkg/adapter/adapter.go:465-472 | every saved block ID keeps hashing the header the stores rebuild for its height |
| BlockChain.HeaderAndCommitAgree | pkg/rpc/core/blocks.go:192-211 | the RPC header shows the executed block's own header field by field, hashes to the block ID in the RPC commit and links to the ID and, by hash, to the commit one height below; the commit is for that block and signed by its proposer |
| BlockChain.ExecutesExactly | pkg/adapter/adapter.go:324-332 | a block is executed if and only if it names a proposer and, above height 1, the block below is stored and executed; each error names its reason |
| BlockChain.RpcAnswers | pkg/rpc/core/utils.go:36-73 | exactly when the RPC has no answer and when it fails |
| BlockChain.InOrderExecutes | pkg/adapter/adapter.go:559-593 | executing heights 1, 2, ... in order never fails and saves every ID |
| PeerIds.MempoolIDs.NextPeerID | pkg/adapter/mempool_ids.go:35-48 | the wrapping search ends at the first free ID, or panics exactly at the maximum |
| PeerIds.MempoolIDs.ReserveForPeer | pkg/adapter/mempool_ids.go:24-31 | the peer gets the first free ID |
| PeerIds.MempoolIDs.Reclaim | pkg/adapter/mempool_ids.go:51-60 | a known peer's ID is freed, an unknown peer changes nothing |
| PeerIds.MempoolIDs.GetForPeer | pkg/adapter/mempool_ids.go:63-75 | a known peer keeps its ID, another one gets the first free ID |
| PeerIds.FirstFreeUnique | pkg/adapter/mempool_ids.go:40-47 | the search has one answer |
| PeerIds.HistorySafe | pkg/adapter/mempool_ids.go:24-83 | over every history IDs are unshared, non-zero and active, and 0 stays active |
| PeerIds.NoEarlyReuse | pkg/adapter/mempool_ids.go:35-48 | while fewer than 65535 IDs were handed out the next one is their number plus one, whatever was reclaimed |
| PeerIds.HistoryTight | pkg/adapter/mempool_ids.go:24-83 | over every history, active IDs are exactly the mapped ones and 0 if and only if no reservation below the maximum was for a peer that had an ID |
| PeerIds.ReserveLeaks | pkg/adapter/mempool_ids.go:24-31 | a reservation leaks an ID if and only if the peer was known |
| PeerIds.RereservingExhausts | pkg/adapter/mempool_ids.go:35-38 | repeated reservations for one peer use up all IDs |

## Left out

- Decoder.Unmarshal: on an error the Go method leaves some fields of its receiver assigned; the model returns the error alone. One method stands for the three generated copies of the loop, and the message is a value the loop reassigns.
- Codec.Message: the receiver is a value, so aliasing of the decoded bitmap with an earlier one is not modelled.
- Network.Params: fractions are the decimals their text parses to; the decimal parser and its limits belong to the Cosmos SDK.
- Network.Keeper.ProcessEpochEnd: the participation rate only decides about a log line, ejection is not implemented in the source.
- Network.Keeper.JoinAttesterSet: bech32 parsing is a Boolean parameter; which validators are bonded comes from staking.
- GenesisRuns.ReachableExportsValid: assumes what staking promises at each call (distinct operators, at most 65535 bonded), one end blocker per height and indices below 2^16.
- Migration.Keeper.MigrateOver: failing reads and writes of the step item are not modelled.
- MigrationWindow.WholeWindow: assumes the same validator list throughout the window and no second message inside it; it applies change sets to a map, so CometBFT's rejection of a removal that names no member is not part of the run, `ClosingRepeatsRemovals` says when that would happen; neither is its rejection of an empty set, which `NeverEmpty` says when to expect.
- EventQueue.Adapter.ExecuteTxs: the ABCI calls, validator set and consensus parameter updates, state saving and mempool before the event part.
- BlockChain.HeaderAndCommitAgree: assumes that the header passed to ExecuteTxs is the stored one; part sets and hash functions are parameters.
- PruneOldBitmaps is never called; Copy and Clear of bitmaps are plain loops.
- Vote signature checking is not implemented in the source.
- Mutexes, goroutines, gossip, timeouts, metrics, logging, events of the network module, CLI and server wiring.
- RPC pagination, block search, height filters and the file-based migration command.
- The other generated protobuf files, which repeat the same pattern.
