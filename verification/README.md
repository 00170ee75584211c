# zond in Dafny

A Dafny model of the hard cores of zond, a proof-of-stake node built on go-ethereum parts, with
proofs of what they promise. `dfyconfig.toml` names all files of the project.

| part | files |
|---|---|
| RLP: the encoder buffer, its three outputs, and a decoder | `RlpSpec`, `RlpInts`, `RlpBuffer`, `RlpOutput` |
| Chain indexer as a state machine and as an object | `ChainIndexer` |
| Fork choice, epoch records, two-thirds finality, adding blocks | `BlockTree`, `ForkChoice`, `EpochRecords`, `EpochUpdate`, `EpochHistory`, `EpochSpeakers`, `EpochAccounts`, `Finality`, `ChainNode`, `Scenarios` |
| Slot allotment, stake registry, protocol transactions | `EpochMeta`, `SlotAllotment`, `Ledger`, `StakeRegistry`, `ProtocolTxs` |
| Gas, fees, nonces and block processing | `GasPool`, `StateTransition`, `BlockProcessor`, `TransferFees`, `Nonces` |
| Sampling reservoir | `SampleHeap` |
| Configuration compatibility | `ConfigCompat` |
| Shared: options, hashes, 64-bit words | `Wrappers`, `Hashes`, `Machine` |

Every object the Go code changes in place is a class, and each of its methods is proved equal to a
function of the old state (`State() == NewHead(old(State()), …)`, `Wrote(old(State()), State(), …)`).
The theorems are about those functions: over every value, every run of steps, every reachable state.

## What is proved

- **RLP.** Driving `list`, the writers and `listEnd` over any value and copying the buffer out gives
  exactly the recursive encoding of Appendix B of the Ethereum Yellow Paper (`EncodeToBytes`,
  `ListWrote`). The size field always counts all inner headers. `copyTo`, `writeTo` and `Read` with
  buffers of any sizes deliver the same bytes. The decoder built on `readKind` accepts exactly the
  encodings (`DecodeExactly`), so the encoding is injective and prefix-free.
- **Chain indexer.** In every interleaving of chain changes, head events, reorgs and background
  processing the stored section heads form one hash-linked chain (`RunKeeps`, `OneChain`); checking
  the top head alone is enough (`VerifyExact`); which sections a head event makes known and a reorg keeps
  is exact (`HeadAdvances`, `ReorgReverts`); an undisturbed turn of the update loop is one of those
  interleavings (`TurnIsRun`); updating always ends, and on a complete chain with a working backend it
  ends with every known section stored (`UpdateUntilDone`).
- **Chain.** In every run of commits each recorded total is the stake down to the nearest block in slot
  0, and the head is the first block of maximum total since the last commit in slot 0 (`RunHead`); after
  slot 0 these are the sum and the maximum over all (`RunHeadIsFirstMax`). Every block finds the record
  its epoch's first block stored, and every record is what computing it again gives (`CommitRecords`).
  Finalization happens exactly where two complete epoch runs with records of two thirds lie above the
  finalized block and enough epochs have passed (`FinalizesIff`); in both runs two thirds of the epoch's
  validators spoke, all of them different if slots rise, and the blocks ever finalized lie on one line
  (`FinalizedByTwoThirds`, `RunSpeakers`, `Chain.AddBlock`). Along every branch the validators of a
  block's record are the keys with stake in the accounts the block left (`CommitAccounts`).
- **Validators.** `AllotSlots` places every index once (`PlacedOnce`), no key has two roles
  (`RolesByPosition`, `OneSlotPerKey`), a block counts each of its validators once (`ProtocolStake`), and
  the validator list is at all times exactly the keys of full stake, if and only if no amount of 2^63 or
  more is staked (`RunKeepsIff`).
- **Coins and gas.** What a message or a stake transaction does to every account is exact (`AppliedExact`,
  `StakeCharges`), a message is refused for the first of twelve reasons (`FirstReason`), no transaction can be
  applied twice (`NoncesRise`, `SpentIsRefused`), fees are exact for sender and minter (`FeesExact`), no
  accepted transfer costs the minter anything under a base fee below 2^63 (`TipNonNegative`), a block
  changes the supply by the fee reward minus the base fee of the transfers' gas (`BlockSupply`), and used
  gas plus pool is the gas limit (`Processor.Process`).
- **Reservoir.** Heap order and bag are kept by every operation, also by the rescale loop that reads
  from the array it rebuilds (`Heap.Rescale`).
- **Configuration.** Nothing is reported exactly if the configurations agree field by field up to the
  height (`CompatibleIff`, `CheckCompatible`). The compatibility search ends exactly under a stated condition (`SearchEndsIff`),
  which equal settings meet (`SameSettingsEnd`), and finds the highest compatible head exactly under
  another (`HighestIff`, `CheckCompatible`).

## Where the code does less than expected

Each of these has the exact condition as a lemma, and a concrete input where it shows.

- A block committed in slot 0 takes the head whatever its stake (`CommitKeepsMaxIff`), and its total
  starts from nothing, so totals stop being the sums down to genesis exactly if there was stake below it
  (`CommitFullTotalsIff`, `FullTotalsIff`). `AddBlock` accepts such a block above a block of a later epoch:
  `SlotZeroTakesHead` gets there with two blocks.
- Finalization hands an empty path to `Finalize`, which indexes its last element, exactly when the two
  runs sit directly on the finalized block: `EmptyPathIff`. `AddBlock` reports this as `AddedThenPanics`;
  `EmptyPathIsReached` gets there with one block per epoch.
- `AddBlock` compares the parent's slot with the finalized slot but not its branch, so the head descends
  from the finalized block exactly if the block that takes the head has it on its own branch:
  `HeadOnFinalIff`. `HeadLeavesFinal` gets there with six blocks, one of which `AddBlock` adds before it
  panics on an empty path.
- The epochs between a block and the finalized one are subtracted in 64 bits, so a block of an earlier
  epoch counts as far above it, exactly up to 2^64 - 4 epochs: `EnoughIff`, `EarlierEpochIsFar`.
- A stake transaction conserves the supply exactly if refund and tip add up within a signed 64-bit
  word: `StakeConservesIff`, `StakeFeeOverflows`.
- A stake transaction leaves the registry in order exactly for amounts below 2^63: `StakeKeepsIff`,
  `StakeAmountOverflows`. What holds for all amounts is `RunKeepsLoose`.
- A key listed twice in an epoch update is removed instead of updated: `UpdateOutcome`,
  `ListedTwiceIsRemoved`. A block lists each key once (`PendingOnce`), but the lists of a run are joined,
  so this happens to a key with stake transactions in two blocks of an epoch (`JoinedCount`,
  `BoundaryOutcome`).
- Buying gas leaves the sender a non-negative balance exactly if the balance check asks for at least the
  price of the gas (`BalanceAfterBuyingIff`), which for a transfer under a non-negative base fee means a
  value below 2^63 (`TransferBalanceIff`); among the accounts a block accepts it from, the check on the
  low word of the balance catches some larger values too (`AcceptedBalanceIff`). `NegativeBalance` has an
  accepted transfer that overdraws.
- A header's base fee of 2^63 or more is read as negative, and exactly then a transfer can be accepted
  that costs its minter: `TipsNonNegativeIff`, `NegativeTip`.
- A stake receipt reports the gas used so far as its own gas: `ReceiptAt`, `SecondStakeReceipt`.
- The reservoir drops the smallest sample without comparing it to the new one, so it keeps the samples
  of highest priority exactly if the new one ranks no lower: `AdmissionKeepsLargestIff`, `LargerDropped`.
  With a reservoir size of 0 it pops from an empty heap: `ExpDecaySample.Update` fails exactly then.
- `IsDAOFork` and `IsEIP158` are always true in this code, although their comments speak of fork
  blocks, so a differing setting conflicts at every height and `CheckCompatible` may never return:
  `SearchEndsIff`, `DaoSupportEndsIff`, `NeverEnds`.
- The rewind point can be lower than needed, because Petersburg rewinds to before its own earlier block
  although it conflicts only where it may not move onto Constantinople's: `ForkTightIff` for Petersburg
  alone, `HighestIff` and `AlwaysHighestIff` for two configurations, `PetersburgRewindsTooFar`.

## Model

| member | source | states |
|---|---|---|
| `RlpSpec.FromBEInvertsBE` | rlp/encode.go:407-462 | reading the shortest big-endian form of a number gives the number back |
| `RlpSpec.BEInvertsFromBE` | rlp/raw.go:161-190 | a byte string without leading zero is the shortest form of the number it reads as |
| `RlpSpec.BELength` | rlp/encode.go:465-471 | the shortest form has at most k bytes iff the number is below 256^k, and never starts with zero |
| `RlpSpec.EncodeAllSplit` | rlp/encode.go:278-316 | a list's element encodings follow each other inside the payload and fit into it |
| `RlpSpec.ReadKind` | rlp/raw.go:120-159 | an accepted header announces a non-empty value that lies within the input |
| `RlpSpec.Decode` | rlp/raw.go:47-53 | a decoded item always consumes input |
| `RlpSpec.KindOfStr` | rlp/raw.go:120-159 | a canonical string header followed by its payload and anything else reads back as exactly that header |
| `RlpSpec.KindOfList` | rlp/raw.go:120-159 | the same for list headers |
| `RlpSpec.DecodeInvertsEncode` | rlp/encbuffer.go:102-190 | decoding an item's encoding returns the item and exactly the bytes after it |
| `RlpSpec.DecodeAllInvertsEncodeAll` | rlp/encbuffer.go:158-171 | decoding a list payload returns its items |
| `RlpSpec.SizeIsCanonical` | rlp/raw.go:161-190 | an accepted long size field is the shortest form of the size it gives |
| `RlpSpec.KindHeadIsCanonical` | rlp/raw.go:120-159 | every accepted header is the canonical one for its kind and size |
| `RlpSpec.EncodeInvertsDecode` | rlp/raw.go:47-53 | whatever decodes is the encoding of the decoded item followed by the rest |
| `RlpSpec.DecodeExactly` | rlp/raw.go:47-53 | input decodes to an item and a rest iff it is that item's encoding followed by that rest |
| `RlpSpec.PrefixFree` | rlp/encbuffer.go:102-190 | no item's encoding is a prefix of another's, hence distinct items have distinct encodings |
| `RlpInts.PutIntIsBE` | rlp/encode.go:407-462 | the eight unrolled cases write the shortest big-endian form, one byte for zero |
| `RlpInts.PutInt` | rlp/encode.go:407-462 | the form is written in place at the offset, nothing else changes, its length is returned |
| `RlpInts.IntSize` | rlp/encode.go:465-471 | the shifting loop returns the length of that form |
| `RlpInts.PutHead` | rlp/encode.go:122-130 | the header of the size is written in place and its length returned |
| `RlpInts.BitLenBytes` | rlp/encbuffer.go:133-140 | bit length rounded up to bytes is the length of the shortest form, and 64 bits separate the two branches |
| `RlpInts.StoreWords` | rlp/encbuffer.go:141-154 | the double loop over words fills the zeroed tail with the shortest big-endian form |
| `RlpInts.StoreWord` | rlp/encbuffer.go:146-153 | the inner loop stores the low bytes of the number in place and leaves the higher part for the next word |
| `RlpBuffer.SpliceAppend` | rlp/encbuffer.go:46-60 | data and headers added behind a buffer come out behind its output |
| `RlpBuffer.WroteBoth` | rlp/encbuffer.go:88-190 | writes compose: the second one's bytes follow the first one's, sizes add up |
| `RlpBuffer.WroteBehind` | rlp/encbuffer.go:46-60 | what is written comes out after what the buffer held |
| `RlpBuffer.ListWrote` | rlp/encbuffer.go:158-171 | opening a list, writing p and ending it writes the list header of the length of p and then p, and the size counts the header |
| `RlpBuffer.EncodeNumber` | rlp/encbuffer.go:102-113 | the encodings of 0, of a single byte below 128 and of larger numbers are those of the three branches |
| `RlpBuffer.ToItemMeans` | rlp/encbuffer.go:94-154 | a flag is one byte, 1 or the empty string's; a number is the shortest string that reads back as it; a list has the items of its elements in order |
| `RlpBuffer.EncBuffer.constructor` | rlp/encbuffer.go:10-26 | a new buffer is empty and valid |
| `RlpBuffer.EncBuffer.Reset` | rlp/encbuffer.go:28-32 | the buffer is empty again |
| `RlpBuffer.EncBuffer.Size` | rlp/encbuffer.go:35-37 | once all lists are ended the size is the length of the output |
| `RlpBuffer.EncBuffer.WriteBool` | rlp/encbuffer.go:94-100 | writes the encoding of 0 or 1, which is the byte 0x80 or 0x01 |
| `RlpBuffer.EncBuffer.WriteUint64` | rlp/encbuffer.go:102-113 | writes the encoding of the shortest form of the number |
| `RlpBuffer.EncBuffer.EncodeStringHeader` | rlp/encbuffer.go:182-190 | appends the canonical string header of the size |
| `RlpBuffer.EncBuffer.WriteBytes` | rlp/encbuffer.go:115-123 | writes the encoding of the byte string |
| `RlpBuffer.EncBuffer.WriteBigInt` | rlp/encbuffer.go:133-154 | writes the encoding of the shortest form of any natural number |
| `RlpBuffer.EncBuffer.List` | rlp/encbuffer.go:158-161 | keeps a header aside with the offset it belongs to and the header sizes so far |
| `RlpBuffer.EncBuffer.ListEnd` | rlp/encbuffer.go:163-171 | gives the header its payload size and counts its own encoded length |
| `RlpBuffer.EncBuffer.EncodeValue` | rlp/encbuffer.go:173-180 | driving the writers over any value writes its recursive encoding behind the buffer |
| `RlpBuffer.EncBuffer.EncodeList` | rlp/encode.go:278-364 | slices and structs write the encoding of the list of their elements |
| `RlpOutput.CopyTo` | rlp/encbuffer.go:46-60 | the output is written at the given place of the array and nothing else changes |
| `RlpOutput.MakeBytes` | rlp/encbuffer.go:40-44 | the new slice is the output |
| `RlpOutput.AppendToBytes` | rlp/encbuffer.go:335-340 | the new slice is the given one followed by the output |
| `RlpOutput.EncodeToBytes` | rlp/encode.go:73-81 | the bytes are the recursive encoding of the value |
| `RlpOutput.WriteTo` | rlp/encbuffer.go:63-85 | what is written is always a prefix of the output, and all of it if no write fails |
| `RlpOutput.WriteHead` | rlp/encbuffer.go:65-78 | one header with the data before it is delivered, or a prefix of it at a failure |
| `RlpOutput.EncReader.constructor` | rlp/encode.go:88-98 | a new reader has the whole output to deliver |
| `RlpOutput.EncReader.Next` | rlp/encbuffer.go:226-257 | selecting the next piece changes nothing about what remains, and no piece means nothing remains |
| `RlpOutput.EncReader.Read` | rlp/encbuffer.go:201-222 | a read fills the buffer with the next bytes, what remains is the rest, and it ends early only at the end of the output |
| `RlpOutput.EncReader.TakePiece` | rlp/encbuffer.go:213-220 | what does not fit of a piece is kept for the next read |
| `RlpOutput.ReadAll` | rlp/encbuffer.go:201-257 | reading with buffers of any sizes delivers the output, nothing lost or repeated |
| `ChainIndexer.DropKeeps` | core/chain_indexer.go:462-474 | dropping sections down to the checkpoint, or all of them, keeps the index invariant |
| `ChainIndexer.VerifyKeeps` | core/chain_indexer.go:405-412 | verification keeps the invariant and never adds sections |
| `ChainIndexer.NewHeadKeeps` | core/chain_indexer.go:226-283 | head events and reorgs keep the invariant and never add sections |
| `ChainIndexer.CheckpointKeeps` | core/chain_indexer.go:113-126 | adding a checkpoint keeps the invariant |
| `ChainIndexer.CommitKeeps` | core/chain_indexer.go:334-336 | a section committed on the head it was built on is linked to it, although the lock was released meanwhile |
| `ChainIndexer.FinishKeeps` | core/chain_indexer.go:334-351 | committing or giving up a section keeps the invariant |
| `ChainIndexer.StepKeeps` | core/chain_indexer.go:226-412 | every atomic step of indexer or environment keeps the invariant of index and background task |
| `ChainIndexer.RunKeeps` | core/chain_indexer.go:226-412 | in every interleaving the persisted count equals the one in memory, no head of a dropped section remains and heads from the checkpoint on are linked |
| `ChainIndexer.OneChain` | core/chain_indexer.go:371-400 | any two stored heads from the checkpoint on lie on one hash chain, exactly whole sections apart |
| `ChainIndexer.CanonicalDown` | core/chain_indexer.go:405-412 | if a stored head is canonical, so are all below it down to the checkpoint |
| `ChainIndexer.VerifyExact` | core/chain_indexer.go:405-412 | above the checkpoint verification keeps a section iff its head is canonical |
| `ChainIndexer.VerifiedIsCanonical` | core/chain_indexer.go:405-412 | after verification every stored head above the checkpoint is canonical |
| `ChainIndexer.VerifySame` | core/chain_indexer.go:405-412 | verification leaves checkpoint and known count alone and ends on a canonical top head |
| `ChainIndexer.FinishProgress` | core/chain_indexer.go:334-351 | finishing adds one section, or sets known to stored |
| `ChainIndexer.HeadAdvances` | core/chain_indexer.go:259-282 | without a reorg only the known count changes: a section becomes known iff it has ended with all confirmations, so has the checkpoint, and the chain is on the checkpoint's head where that was not known yet |
| `ChainIndexer.ReorgReverts` | core/chain_indexer.go:231-246 | a reorg keeps a stored section iff it ends at or below the reorg or belongs to the checkpoint, a known one iff it ends there and the checkpoint does; heads of kept sections stay, the others go |
| `ChainIndexer.CheckpointAdds` | core/chain_indexer.go:113-126 | a checkpoint is refused iff a later one is set or its section is stored; else all sections up to it count as stored and no other head changes |
| `ChainIndexer.ReadsIff` | core/chain_indexer.go:380-395 | a section is read iff every block, when it is read, is canonical, has its header, follows the block before and is taken by the backend |
| `ChainIndexer.TurnIsRun` | core/chain_indexer.go:300-361 | a turn of the update loop without interference is a run of the atomic steps |
| `ChainIndexer.TurnKeeps` | core/chain_indexer.go:300-361 | a turn on a linked chain keeps the invariant and either stores one more section with a canonical head or sets known to stored; on a complete chain with a working backend it is the former |
| `ChainIndexer.ReorgBounds` | core/chain_indexer.go:231-258 | after a reorg to h, stored is at most the maximum of the checkpoint and (h+1)/size, known at most (h+1)/size, and dropped heads are gone |
| `ChainIndexer.ReadsLinked` | core/chain_indexer.go:371-400 | headers read one after another under a changing chain still form a hash-linked run of one section |
| `ChainIndexer.CompleteReads` | core/chain_indexer.go:371-400 | on a complete chain with a working backend all headers are good |
| `ChainIndexer.CompleteSection` | core/chain_indexer.go:312-321 | so the next section is processed with success |
| `ChainIndexer.Indexer.constructor` | core/chain_indexer.go:86-105 | a new indexer over an empty database satisfies the invariant |
| `ChainIndexer.Indexer.SetValidSections` | core/chain_indexer.go:462-474 | sets count and stored, and removes exactly the heads of the dropped sections |
| `ChainIndexer.Indexer.VerifyLast` | core/chain_indexer.go:405-412 | the loop computes VerifyLastHead |
| `ChainIndexer.Indexer.OnNewHead` | core/chain_indexer.go:226-283 | the new state is NewHead of the old one: sections become known as in HeadAdvances, or are reverted as in ReorgReverts |
| `ChainIndexer.Indexer.Checkpoint` | core/chain_indexer.go:113-126 | nothing changes if a later checkpoint is set or the section stored; else stored, count and checkpoint are just after the section, whose head is set |
| `ChainIndexer.Indexer.ProcessSection` | core/chain_indexer.go:371-400 | the result is the end of a linked run of one section after the last head, exactly if reset and commit succeed and every block is good when it is read |
| `ChainIndexer.Indexer.ReadSection` | core/chain_indexer.go:380-395 | the loop computes ReadHeaders and its result is linked and was canonical when read |
| `ChainIndexer.Indexer.FinishSection` | core/chain_indexer.go:334-351 | commits the section iff the head it was built on is still stored |
| `ChainIndexer.Indexer.TakeTurn` | core/chain_indexer.go:300-361 | verifying, processing and committing or giving up make up the turn that TurnIsRun resolves into atomic steps |
| `ChainIndexer.Indexer.Update` | core/chain_indexer.go:300-361 | one turn keeps the invariant and either stores one more canonical section or leaves nothing to do; on a complete chain it is the former |
| `ChainIndexer.Indexer.UpdateUntilDone` | core/chain_indexer.go:287-365 | updating ends however the backend behaves, with stored at least known and all heads above the checkpoint canonical; on a complete chain no known section is given up |
| `BlockTree.LineageDrop` | metadata/epoch.go:146-193 | the tail of a lineage is the lineage of the block there, each followed by its parent |
| `BlockTree.LineageSame` | core/state_processor.go:396-436 | adding blocks does not change the lineages of those present |
| `BlockTree.AddGrounded` | core/state_processor.go:450-459 | a block above a present parent keeps the parent links well-founded |
| `BlockTree.AncestorTrans` | block/block.go:366-383 | ancestry is transitive |
| `ForkChoice.CommitGrounded` | core/state_processor.go:396-571 | a commit succeeds above a present parent, keeps the database in order and changes no earlier block |
| `ForkChoice.CommitTotals` | core/state_processor.go:399-436 | every commit keeps each recorded total the sum of stakes down to the nearest block in slot 0 |
| `ForkChoice.CommitFullTotalsIff` | core/state_processor.go:399-436 | a new block keeps all totals the sums down to genesis iff it is after slot 0 or nothing was counted below it |
| `ForkChoice.FullTotalsIff` | core/state_processor.go:399-436 | over all blocks the totals are sums down to genesis iff no block in slot 0 has stake below it |
| `ForkChoice.CommitKeepsMeta` | core/state_processor.go:450-459 | no commit, repeated ones included, changes what is recorded about the blocks already there |
| `ForkChoice.CommitKeepsMaxIff` | core/state_processor.go:526-532 | a commit keeps the head maximal iff it is after slot 0 or carries at least the head's total itself |
| `ForkChoice.RunRank` | core/state_processor.go:396-571 | any run of commits keeps the database in order |
| `ForkChoice.HeadNext` | core/state_processor.go:526-532 | a strictly larger total, or slot 0, takes the head; a tie keeps the earlier one |
| `ForkChoice.RunHead` | core/state_processor.go:396-571 | in every run of commits totals are sums down to the nearest block in slot 0 and the head is the first block of maximum total since the last commit in slot 0 |
| `ForkChoice.RunHeadIsFirstMax` | core/state_processor.go:396-571 | in every run of commits after slot 0 the head is the first committed block of maximum path stake and all totals are sums down to genesis |
| `ForkChoice.GenesisHolds` | core/state_processor.go:51-91 | genesis satisfies what the run theorems start from |
| `EpochRecords.RunShape` | chain/chain.go:909-926 | the run of a block's epoch lies in that epoch, starts where the epoch does and is a segment of the lineage |
| `EpochRecords.GetEpochMetaData` | metadata/epoch.go:146-193 | the parent walk returns the record under the resolved key, or fails if the walk leaves the database |
| `EpochRecords.ResolvesToFirst` | metadata/epoch.go:146-193 | every block resolves to the key that the first block of its epoch on its own branch stored, epoch 0 included |
| `EpochRecords.LookupAbove` | metadata/epoch.go:146-193 | a block that opens an epoch looks its record up under its parent's hash |
| `EpochHistory.EveryBlockFindsItsRecord` | metadata/epoch.go:146-193 | every committed block finds a record, the one its epoch's first block stored |
| `EpochHistory.SlotZeroOpens` | metadata/epoch.go:153-161 | above a block of epoch 0 nothing can be added in slot 0 |
| `EpochHistory.RecordKnown` | chain/chain.go:893-981 | a record that is due again at another block is the one already stored |
| `EpochHistory.CommitEpochs` | core/state_processor.go:477-482 | commits only ever add records, under the key of the block that opens the epoch |
| `EpochHistory.RecordSame` | chain/chain.go:893-981 | a record is computed the same as blocks and records are added |
| `EpochHistory.CommitRecords` | core/state_processor.go:477-482 | after every commit each epoch start has its record, each record its epoch start, and each record is what computing it again gives |
| `EpochRecords.PathToFirstBlockOfEpoch` | chain/chain.go:909-926 | the walk collects exactly the epoch run, newest first |
| `EpochUpdate.CalculateEpochMetaData` | chain/chain.go:893-981 | within an epoch the stored record; at its first block a new one with the stake found in the complete run before, the stake allotted for it, and the validators and accounts after the run's stake transactions; the fault of no validators; else an error |
| `EpochUpdate.ProcessRun` | chain/chain.go:949-964 | the loop over the run adds up the stake found and joins the keys whose stake is due, or fails if a block or stake is missing |
| `EpochUpdate.JoinedCount` | chain/chain.go:949-964 | a key is listed as often as there are blocks in the run with a stake transaction of it |
| `EpochAccounts.StateAgrees` | chain/chain.go:945-966 | the accounts a block that opens an epoch is processed on agree with the validators of its record |
| `EpochAccounts.CommitAccounts` | core/state_processor.go:260-394 | after every commit the validators of a block's record are exactly the keys with any stake in the accounts it left |
| `EpochAccounts.BoundaryOutcome` | chain/chain.go:949-966 | at an epoch boundary above any committed block a key's pending stake takes effect iff exactly one block of the run staked it; with more it is removed |
| `EpochAccounts.BoundaryResult` | chain/chain.go:893-981 | above any committed block a new record fails iff someone spoke in the run without a full stake in the accounts now, faults iff otherwise no key has stake after the update, and else lists exactly the keys with stake, found and allotted being one stake per speaker and per validator before |
| `EpochUpdate.ProcessEpochMetaData` | core/state_processor.go:1065-1076 | one stake is counted per protocol transaction, iff all stakes are loaded |
| `EpochRecords.EpochRunSame` | core/state_processor.go:396-571 | commits do not change the runs of earlier blocks |
| `EpochSpeakers.ProcessedSpeaks` | state/statecontext.go:98-156 | processing succeeds only if the slot's validators speak for the block, and counts one stake each |
| `EpochSpeakers.ProcessedIff` | state/statecontext.go:98-156 | in a fresh context processing succeeds iff the slot's validators speak, its leader proposes, and all who speak have a full stake |
| `EpochSpeakers.CommitSpeaks` | core/state_processor.go:396-571 | commits keep every record without duplicates and every block spoken for by validators of its record |
| `EpochSpeakers.RunSpeakers` | metadata/epoch.go:99-128 | over an epoch run in rising slots everyone who spoke is a different validator of the run's record |
| `EpochSpeakers.SpeakersFit` | metadata/epoch.go:99-128 | so no more validators speak than the record lists |
| `Finality.WalkToFirst` | block/block.go:326-336 | the walk ends at the first block of the run, or fails when it leaves the database |
| `Finality.CollectPath` | block/block.go:370-383 | the loop collects the blocks down to the finalized one, or fails if it is not on the way |
| `Finality.UpdateFinalizedEpoch` | block/block.go:295-386 | a path is finalized iff, in slots, the block is four epochs above the finalized one, or three above slot 0 (a negative difference counting as 2^64 more), its parent is not in epoch 0, and its chain is two complete runs with records of two thirds, the path, and the finalized block; nothing is done iff a record falls short, the distance does, or the parent is in epoch 0; else a lookup fails |
| `Finality.EnoughIff` | block/block.go:302-313 | enough epochs have passed iff the difference is at least 4, or 3 above slot 0, or negative and more than 3 above -2^64 |
| `Finality.EarlierEpochIsFar` | block/block.go:302-313 | a block in slot 0 passes the test against a finalized block of epoch 1 |
| `Finality.FinalizesIff` | block/block.go:295-386 | the same iff for the outcome as a function |
| `Finality.SkipsIff` | block/block.go:295-352 | when finalizing is left alone rather than failing |
| `Finality.CompleteIffWhole` | block/block.go:326-336 | the walk over parents visits exactly the maximal segment of one epoch at the upper end of the chain |
| `Finality.PathIff` | block/block.go:367-383 | a path is found iff it is the part of the chain above the finalized block |
| `Finality.FinalizeFrom` | block/block.go:343-385 | the second half: record, run and path |
| `Finality.RunInOneEpoch` | block/block.go:326-336 | a whole run is one epoch's segment of the lineage, followed by another epoch |
| `Finality.PathShape` | block/block.go:367-383 | a path exists iff the finalized block is an ancestor, and is exactly the lineage above it |
| `Finality.FinalizesBelowTwoRuns` | block/block.go:295-386 | what is finalized lies directly below two complete runs of different epochs whose records both meet two thirds |
| `Finality.FinalizesOnBranchOnly` | block/block.go:367-383 | something is finalized only if the finalized block is an ancestor |
| `Finality.FinalityExtends` | block/block.go:367-385 | the newly finalized block is a proper descendant of the finalized one and an ancestor of the block |
| `Finality.EmptyPathIff` | block/block.go:365-385 | the path is empty iff the two runs sit on the finalized block |
| `Scenarios.EmptyPathIsReached` | state/statecontext.go:162-164 | adding one block per epoch to a new chain ends in the panic on the empty path |
| `Scenarios.SlotZeroTakesHead` | core/state_processor.go:526-532 | adding a block in slot 0 to a chain of two blocks makes it the head and breaks maximality and path sums |
| `Scenarios.FinalizedBesideFork` | chain/chain.go:706-840 | five added blocks finalize one, with the head on its branch and a fork beside it |
| `Scenarios.FinalizesTwice` | block/block.go:302-313 | with one block per epoch the blocks of epochs four and five finalize those of epochs one and two |
| `Scenarios.HeadLeavesFinal` | chain/chain.go:729-748 | a block in slot 0 on the fork is added and the head leaves the finalized branch |
| `Finality.PathIsContiguous` | block/block.go:367-383 | each block of the path is followed by its parent, the last one sits on the finalized block |
| `Finality.Finalize` | state/statecontext.go:162-216 | finalizes the newest block of the path iff the path is linked |
| `ChainNode.CommitKeepsNode` | chain/chain.go:754-789 | committing under the computed record keeps the node's whole invariant |
| `ChainNode.FinalizeKeepsNode` | state/statecontext.go:210-214 | recording a finalized block keeps the node's invariant |
| `ChainNode.GenesisNode` | core/state_processor.go:51-91 | genesis satisfies the node's invariant |
| `ChainNode.FinalizedPath` | block/block.go:367-385 | a path to finalize is linked down to the finalized block, so Finalize succeeds |
| `ChainNode.AboveBlockIsBlock` | block/block.go:367-383 | a descendant of the finalized block is a block, never the record below genesis |
| `ChainNode.WholeIsEpochRun` | block/block.go:326-336 | outside epoch 0 the runs finality examines are those the records were computed from |
| `ChainNode.FinalizedByTwoThirds` | block/block.go:295-386 | behind a finalization, in both runs, whatever their epochs, validators of two thirds of the epoch's stake spoke, different ones if slots rise |
| `ChainNode.FoundWithinAlloted` | chain/chain.go:945-964 | with rising slots the stake found is never more than the stake allotted |
| `ChainNode.RecordOfRun` | chain/chain.go:893-981 | found and allotted stake of a record are those of the run below it |
| `ChainNode.FinalityMovesIff` | chain/chain.go:817-820 | adding a block moves the finalized block iff the block is the head, opens an epoch, is far enough above, and a path that is not empty lies between two complete runs of two thirds and the finalized block, to the newest block of that path; it panics iff that path is empty |
| `ChainNode.HeadOnFinalIff` | chain/chain.go:729-748 | after a block is added the head descends from the finalized block iff, where the block takes the head, its branch holds the finalized block, and otherwise iff it did before |
| `ChainNode.FinalizeBelowBlock` | chain/chain.go:817-820 | the finalized block moves to the newest block of the path, which descends from it, or stays |
| `ChainNode.OneLineNext` | block/block.go:295-386 | a newly finalized descendant keeps all blocks ever finalized on one line |
| `ChainNode.CheckedIff` | chain/chain.go:706-748 | a block passes the checks iff hash and slot are right and its parent is the finalized block or in a later slot |
| `ChainNode.Chain.constructor` | chain/chain.go:344-439 | a chain after genesis satisfies the invariant |
| `ChainNode.Chain.AddBlock` | chain/chain.go:706-840 | a block in any slot is added iff it passes the checks, its parent being the finalized block or in a later slot, faults iff no validators are left, else is refused and nothing changes; the new database is the committed one with finality updated; the head is the first of maximum total since slot 0; what is finalized was spoken for by two thirds twice and stays on one line |
| `ChainNode.Chain.CommitBlock` | core/state_processor.go:396-571 | the stepwise commit is Commit of the old database, and the object follows the stored head |
| `ChainNode.Chain.UpdateFinality` | chain/chain.go:817-820 | the database is the old one with the outcome's newest block finalized |
| `EpochMeta.AddedKeeps` | metadata/epoch.go:77-88 | adding a key keeps the list without duplicates and adds exactly that key |
| `EpochMeta.RemovedKeeps` | metadata/epoch.go:90-97 | removing a key keeps the list without duplicates and removes exactly that key |
| `EpochMeta.EpochMetaData.AddValidators` | metadata/epoch.go:77-88 | appends the key unless the list has it |
| `EpochMeta.EpochMetaData.RemoveValidators` | metadata/epoch.go:90-97 | removes the first occurrence of the key |
| `EpochMeta.EpochMetaData.Shuffle` | metadata/epoch.go:103-107 | any swaps leave a permutation |
| `EpochMeta.PermutedDistinct` | metadata/epoch.go:103-107 | a permutation keeps keys distinct |
| `EpochMeta.EpochMetaData.AllotSlots` | metadata/epoch.go:99-128 | validators are permuted, stay distinct, and slot j is the slot of index j in the table |
| `EpochMeta.EpochMetaData.DealRound` | metadata/epoch.go:117-127 | one round deals the next validators, one to each slot, until none is left |
| `SlotAllotment.AttestorsClosed` | metadata/epoch.go:116-127 | the attestors of slot j are j+B, j+2B and so on below the number of validators |
| `SlotAllotment.SlotHolds` | metadata/epoch.go:99-128 | slot j holds exactly the indices congruent to j modulo B, index j leading |
| `SlotAllotment.SlotDistinct` | metadata/epoch.go:99-128 | no index occurs twice in a slot |
| `SlotAllotment.PlacedOnce` | metadata/epoch.go:99-128 | every index is in its slot and in no other |
| `SlotAllotment.NewSlotValidators` | metadata/slotvalidators.go:41-61 | the loop builds leader and roles of the slot, and faults iff the slot was dealt nobody |
| `SlotAllotment.RolesMean` | metadata/slotvalidators.go:31-61 | a key is attestor iff it attests, leader iff it leads and does not attest |
| `SlotAllotment.RolesByPosition` | metadata/slotvalidators.go:31-61 | with distinct keys the key at position v leads slot v only and attests in slot v mod B only, never both |
| `SlotAllotment.OneSlotPerKey` | metadata/slotvalidators.go:41-61 | no key has a role in two slots of an epoch |
| `Ledger.SupplySet` | core/state_processor.go:633-662 | setting one account changes the supply by that account alone |
| `Ledger.S64Sum` | core/state_processor.go:640-662 | signed words add up iff the sum fits |
| `StakeRegistry.StakeCharges` | core/state_processor.go:623-662 | every account after a stake transaction, sender and minter possibly the same: fee, pending stake, amount and refund to the sender, the fee of 1000 gas to the minter, the sender's nonce one higher, nothing else |
| `StakeRegistry.StakeCosts` | core/state_processor.go:623-662 | with a fee below 2^63 a valid stake transaction costs the sender 1000 times the price beyond the stake, which the minter gets, and with the amount below 2^63 too the sender could afford it |
| `StakeRegistry.StakeSupply` | core/state_processor.go:633-662 | a stake transaction adds to the supply exactly what fee, refund and tip leave over |
| `StakeRegistry.StakeConservesIff` | core/state_processor.go:633-662 | it conserves the supply iff refund and tip add up within a signed word, also for sender equal minter |
| `StakeRegistry.StakeConserves` | core/state_processor.go:633-662 | it conserves the supply for every fee below 2^63 |
| `StakeRegistry.UpdateConserves` | core/state_processor.go:1078-1098 | epoch updates conserve the supply |
| `StakeRegistry.UpdateAccount` | core/state_processor.go:1078-1098 | they keep what every account owns and its nonce, and leave accounts of unlisted keys alone |
| `StakeRegistry.StateDB.UpdateStakeValidators` | core/state_processor.go:1078-1098 | the loop over the keys computes UpdateAll on accounts and validator list |
| `StakeRegistry.StakeFeeOverflows` | core/state_processor.go:633-662 | a validated transaction of an empty account whose fee overflows and adds 2^64 coins |
| `StakeRegistry.StakeKeepsIff` | core/state_processor.go:623-678 | a validated stake transaction keeps the registry invariant iff its amount is below 2^63 |
| `StakeRegistry.StakeAmountOverflows` | core/state_processor.go:850-865 | a validated amount of 2^63 that breaks it |
| `StakeRegistry.UpdateAllKeeps` | core/state_processor.go:1078-1098 | epoch updates keep the registry invariant |
| `StakeRegistry.RunKeepsIff` | core/state_processor.go:1065-1098 | over any sequence the validators are at all times without duplicates and exactly the keys of full stake, pending stake being 0 or a full one, iff no applied amount is 2^63 or more |
| `StakeRegistry.RunKeepsLoose` | core/state_processor.go:1065-1098 | over any sequence, whatever the amounts, the validators are without duplicates and exactly the keys with any stake |
| `StakeRegistry.UpdateDistinct` | core/state_processor.go:1078-1098 | epoch updates never list a validator twice |
| `StakeRegistry.UpdateOutcome` | core/state_processor.go:1078-1098 | a key's pending stake takes effect iff the key is listed exactly once; listed more often the validator is removed |
| `StakeRegistry.ListedTwiceIsRemoved` | core/state_processor.go:1078-1098 | a key with stake pending that is listed twice and loses its place |
| `StakeRegistry.PendingOnce` | block/block.go:388-403 | a block lists each of its staking keys once and no other |
| `ProtocolTxs.StateContext.constructor` | state/statecontext.go:218-262 | a fresh context flags exactly the slot's leader and attestors, all unprocessed |
| `ProtocolTxs.StateContext.ProcessAttestorsFlag` | state/statecontext.go:108-129 | an assigned, unprocessed validator of full stake is marked and one stake counted; otherwise refused and nothing changes |
| `ProtocolTxs.StateContext.ProcessBlockProposerFlag` | state/statecontext.go:131-156 | the same for the slot's leader only |
| `ProtocolTxs.ProtocolSupply` | core/state_processor.go:680-761 | coinbase and attestations add exactly the fee reward to the supply and change no stake |
| `ProtocolTxs.ProtocolBalances` | core/state_processor.go:686-745 | every account's gain, loss and nonce, whichever of proposer, attestors and coinbase account coincide |
| `ProtocolTxs.ProtocolStake` | state/statecontext.go:98-156 | the block's stake counts the leader and its attestors once each, all assigned, different and of full stake |
| `ProtocolTxs.ProtocolIff` | state/statecontext.go:98-156 | after slot 0 they are accepted iff the leader proposes and all are assigned, unprocessed, different and of full stake; in slot 0 always, and nothing is counted |
| `ProtocolTxs.BlockStakeBounded` | state/statecontext.go:98-156 | no block carries more than one stake per validator of its slot |
| `ProtocolTxs.ApplyProtocolTxs` | core/state_processor.go:282-323 | succeeds iff all are valid and markable, and leaves the accounts and flags of Protocol |
| `GasPool.Pool.AddGas` | core/gaspool.go:29-35 | adds gas; overflow is excluded by the callers |
| `GasPool.Pool.SubGas` | core/gaspool.go:39-45 | deducts gas iff there is enough |
| `GasPool.IntrinsicGas` | core/state_transition.go:118-156 | returns the intrinsic cost, and fails iff it exceeds 64 bits |
| `GasPool.CostByByte` | core/state_transition.go:118-156 | the intrinsic cost is 21000, or 53000 for a creation, and 4 per zero byte and 16 per other byte |
| `StateTransition.Refund` | core/state_transition.go:349-355 | a refund is at most a fifth of the gas used |
| `StateTransition.IdleIsSound` | core/state_transition.go:321-328 | what is assumed of the EVM can be met |
| `StateTransition.Transition.BuyGas` | core/state_transition.go:192-212 | gas is bought iff the sender covers it at the fee cap with the value and the block has it, leaving at least what the check asked for beyond the price; otherwise nothing changes |
| `StateTransition.Transition.RefundGas` | core/state_transition.go:349-364 | unused gas and refund go back to the sender at the price and to the block, without overflow |
| `StateTransition.Transition.TransitionDb` | core/state_transition.go:275-347 | a message is refused for the first reason that applies, or applied, the pool going down by exactly the gas used and every account changing as in AppliedExact |
| `StateTransition.FirstReason` | core/state_transition.go:192-305 | a message is refused for a reason iff that reason holds and none before it does, and accepted iff none holds |
| `StateTransition.AppliedExact` | core/state_transition.go:192-364 | the EVM gets the accounts with the gas paid and the sender's nonce one higher unless a contract is created, all else as before; afterwards unused gas and at most a fifth of the rest go back to the sender, the minter gets gas used times price minus base fee, and every nonce is as the EVM left it |
| `StateTransition.SpentIff` | core/state_transition.go:321-328 | after a message the sender's nonce is above the message's iff no contract is created or the EVM raised it |
| `StateTransition.Transition.Execute` | core/state_transition.go:321-346 | the EVM runs on the remaining gas, then sender, block and minter are settled |
| `StateTransition.TransferCovered` | core/state_transition.go:307-310 | once gas is bought the sender still covers the value, so the top-level transfer check cannot fail |
| `StateTransition.BalanceAfterBuyingIff` | core/state_transition.go:192-212 | every sender who passes the balance check keeps a non-negative balance iff the check asks for at least the price of the gas |
| `StateTransition.TransferBalanceIff` | core/state_processor.go:1112-1125 | for a transfer under a non-negative base fee: iff its value is below 2^63 |
| `TransferFees.NegativeBalance` | core/state_transition.go:192-212 | an accepted transfer after whose gas purchase the balance is -21000 |
| `TransferFees.BalanceNonNegative` | core/state_transition.go:192-212 | an accepted transfer of less than 2^63 leaves its sender a non-negative balance |
| `TransferFees.AcceptedBalanceIff` | core/state_processor.go:783-787 | over all accounts a block accepts it from, a transfer leaves a non-negative balance iff it is never accepted, its value is below 2^63, or value and gas stay within a word |
| `StateTransition.TransferTipIff` | core/state_processor.go:1112-1125 | the tip of a checked transfer, whose one price field is fee cap and tip cap, is non-negative iff base fee or price is read as non-negative |
| `TransferFees.TipNonNegative` | core/state_transition.go:336-340 | under a base fee below 2^63 every accepted transfer pays its own price, and price minus base fee is non-negative |
| `TransferFees.TipsNonNegativeIff` | block/block.go:51-53 | no accepted transfer costs its minter anything iff the header's base fee is below 2^63 |
| `TransferFees.NegativeTip` | block/block.go:51-53 | for every larger base fee an accepted transfer that does |
| `StateTransition.FeesExact` | core/state_transition.go:192-364 | after an applied message, beyond what the EVM moved, the sender has paid gas used times price, the minter got gas used times price minus base fee, nobody else is touched |
| `StateTransition.AppliedSupply` | core/state_transition.go:275-347 | the supply shrinks by exactly the base fee of the gas used |
| `StateTransition.AppliedStakes` | core/state_transition.go:275-347 | no stake changes |
| `BlockProcessor.ReceiptAt` | core/state_processor.go:593-671 | a receipt carries the cumulative gas; the gas it reports as its own is a transfer's own and a stake transaction's cumulative one, right iff nothing was used before |
| `BlockProcessor.SecondStakeReceipt` | core/state_processor.go:666-671 | a block of two stake transactions of one key is accepted, and the second receipt reports twice the gas used |
| `BlockProcessor.BlockSequel` | core/state_processor.go:260-366 | a processed block changes no stake, and pending stake only for the keys of its stake transactions, to a signed word |
| `BlockProcessor.ReceiptsAscend` | core/state_processor.go:593-666 | cumulative gas never decreases from receipt to receipt |
| `BlockProcessor.RunSupply` | core/state_processor.go:326-364 | over any mix of transactions the supply changes by the base fee of the transfers' gas and what overflowing stake fees leave |
| `BlockProcessor.NoResidues` | core/state_processor.go:640-662 | nothing is left over if no stake fee overflows a signed word |
| `BlockProcessor.BlockSupply` | core/state_processor.go:260-366 | over a block the supply changes by the fee reward minus the base fee of the transfers' gas iff nothing is left over |
| `BlockProcessor.RunKeepsRegistryIff` | core/state_processor.go:326-364 | a block's transactions keep the validator registry in order throughout, whatever contracts run, iff none stakes 2^63 or more |
| `BlockProcessor.Processor.ApplyStake` | core/state_processor.go:623-678 | every account changes as in StakeCharges, fixed gas is used, and it fails iff the block lacks that gas |
| `BlockProcessor.Processor.ApplyTransaction` | core/state_processor.go:573-621 | a transfer is applied or refused by the transition, with its receipt |
| `BlockProcessor.Processor.ApplyTx` | core/state_processor.go:333-357 | a transaction is applied iff it is not refused |
| `BlockProcessor.Processor.ApplyTxs` | core/state_processor.go:326-364 | transactions are applied up to the first refused one, and used gas plus pool is the limit |
| `BlockProcessor.Processor.Process` | core/state_processor.go:260-366 | a block fails iff a protocol transaction or a later one is refused, and otherwise leaves accounts, gas and receipts of the run with used gas plus pool equal to the limit |
| `BlockProcessor.GetPendingValidatorsUpdate` | block/block.go:388-403 | the list has exactly the keys of the block's stake transactions, none twice, in order of first appearance |
| `Nonces.StepNonce` | core/state_processor.go:333-357 | an accepted transaction carries its sender's nonce, raises it, and lowers nobody's |
| `Nonces.NoncesRise` | core/state_processor.go:326-364 | in a block the nonces of one sender's transactions, stakes and transfers alike, rise strictly |
| `Nonces.SpentIsRefused` | core/state_processor.go:326-364 | a transaction of a block is refused ever after, in any block, unless its sender's nonce is lowered |
| `SampleHeap.RootIsMin` | metrics/sample.go:547-549 | the root of a heap is a smallest sample |
| `SampleHeap.UpStep` | metrics/sample.go:583-592 | a swap with the parent moves the only disorder up |
| `SampleHeap.DownStep` | metrics/sample.go:594-610 | a swap with the smaller child moves the only disorder down |
| `SampleHeap.Heap.Up` | metrics/sample.go:583-592 | restores heap order, keeps the bag and every place behind the heap |
| `SampleHeap.Heap.Down` | metrics/sample.go:594-610 | restores heap order among the first places, keeps the bag and every place behind |
| `SampleHeap.Heap.Push` | metrics/sample.go:557-562 | adds exactly the sample and keeps heap order and the array behind |
| `SampleHeap.Heap.Pop` | metrics/sample.go:564-573 | takes out exactly one sample of smallest key and keeps heap order |
| `SampleHeap.Heap.Admit` | metrics/sample.go:168-174 | adds a sample into a free place or that of a smallest one, so the array never overflows |
| `SampleHeap.Heap.Rescale` | metrics/sample.go:175-185 | every sample is rescaled exactly once, none lost or duplicated, although the loop reads from the array it rebuilds |
| `SampleHeap.AdmissionKeepsLargestIff` | metrics/sample.go:168-174 | admission keeps the samples of highest priority iff the new one ranks at least as high as the dropped one |
| `SampleHeap.LargerDropped` | metrics/sample.go:168-174 | an example where it does not |
| `SampleHeap.ScaleOrder` | metrics/sample.go:181-184 | rescaling by a positive factor does not reorder samples |
| `SampleHeap.ExpDecaySample.constructor` | metrics/sample.go:48-60 | a new reservoir is empty |
| `SampleHeap.ExpDecaySample.Clear` | metrics/sample.go:63-70 | the reservoir is empty again |
| `SampleHeap.ExpDecaySample.Update` | metrics/sample.go:164-186 | the sample is admitted, all are rescaled if the threshold has passed, and the size stays the smaller of count and reservoir size; it fails iff the reservoir size is 0 |
| `ConfigCompat.ForkGone` | params/config.go:655-670 | a fork conflict rewinds to below the head and is gone there, or rewinds to 0 |
| `ConfigCompat.FiresUp` | params/config.go:623-633 | a conflict at a head is one at every higher head |
| `ConfigCompat.ForkTightIff` | params/config.go:565-670 | a fork conflict after genesis is there one block above its rewind point iff it is no Petersburg, or Petersburg moves earlier or is not before Constantinople |
| `ConfigCompat.FirstSplit` | params/config.go:565-619 | a differing setting is reported exactly where no earlier fork conflicts |
| `ConfigCompat.FirstDescends` | params/config.go:565-670 | with equal settings every conflict rewinds to below the head, or stays at 0 |
| `ConfigCompat.SearchEndsIff` | params/config.go:503-517 | the search ends iff no setting differs, or the forks before it have no conflict at its rewind point, or have one at genesis |
| `ConfigCompat.ConflictFound` | params/config.go:503-517 | a conflict found on the way down is one at the given height |
| `ConfigCompat.CompatibleIff` | params/config.go:565-643 | nothing conflicts at a head iff DAO support and chain ID agree, each fork is at the same block in both or ahead in both, and Petersburg is so or agrees with the stored Constantinople |
| `ConfigCompat.OnceIsFirst` | params/config.go:565-619 | the comparisons one by one report the first conflict of the list |
| `ConfigCompat.ReportBlames` | params/config.go:565-670 | a reported error names a field in conflict with its two blocks and rewinds to one below the earlier, or 0 |
| `ConfigCompat.LowestConflict` | params/config.go:503-517 | nil iff nothing conflicts; otherwise a rewind point that is 0 or compatible at and below; with a differing setting one that conflicts again |
| `ConfigCompat.HighestIff` | params/config.go:503-517 | the search finds the highest compatible head iff it passes over none: Petersburg conflicts at the height, nothing before it where its conflict begins, and nothing right above its rewind point |
| `ConfigCompat.CheckCompatible` | params/config.go:503-670 | nil iff the configurations are compatible field by field; otherwise an error as in ReportBlames, and with equal DAO support and chain ID one in conflict at the height whose rewind point is 0 or compatible at and below, the highest such head iff none is passed over |
| `ConfigCompat.SameSettingsEnd` | params/config.go:503-517 | with equal DAO support and chain ID the search ends at every height |
| `ConfigCompat.AlwaysHighestIff` | params/config.go:503-643 | two configurations always get the highest compatible head iff none is passed over from the highest height |
| `ConfigCompat.SettingsOf` | params/config.go:572-586 | settings differ iff DAO support or chain ID does |
| `ConfigCompat.DaoSupportEndsIff` | params/config.go:503-574 | with differing DAO support it ends iff Homestead and DAO fork have no conflict at the DAO rewind point, or one has at genesis |
| `ConfigCompat.NeverEnds` | params/config.go:503-517 | two configurations for which it never ends |
| `ConfigCompat.PetersburgRewindsTooFar` | params/config.go:593-599 | two configurations in conflict exactly from head 20 on for which the search ends at 9 |

## Left out

- Cryptography and hashing: hashes and keys are identifiers; `Injective` says that addresses identify keys, and a block's hash identifies the block.
- The EVM, state trie and access lists: the EVM is any function that returns no more gas than it got, conserves the supply and changes no stake (`Sound`). `Nonces` also assumes that it does not lower the nonce of the sender in question and raises it when it creates a contract for it.
- Validation of hashes, signatures, one-time-signature indices and address forms is a parameter (`valid`, `hashOk`, `processOk`); so are the clock (`maxSlot`) and, in `Rules`, the account state after each block and the shuffle a hash seeds.
- bbolt and protobuf persistence: the database is maps with atomic commit; nil slot entries after serialization are not modelled.
- Deletion of empty accounts by `Finalise`: accounts with nothing in them stay in the map, which changes no amount.
- The stake transaction's sender is the address of its public key, as when it is applied; validation takes it from the transaction's own sender address.
- The math/rand shuffle: any sequence of swaps; randomness quality is out of scope.
- Stake totals in epoch records and the counters of the reservoir are natural numbers; their 64-bit overflow is not modelled. The number of rounds in `AllotSlots` is the exact quotient rounded up, which the source computes in floating point.
- Keys of samples are real numbers; rounding, infinities and NaN are not modelled. The exponentials are parameters.
- Chain indexer: child indexers, cascading and checkpoints added while a section is processed; closing and restarting; `SetValidSections` is atomic, also where the source calls it without the lock after a failed reset.
- ChainNode.Chain.AddBlock: refuses a block in a slot that was dealt no validator, where the source meets a nil or empty slot entry; a block's stake is what its protocol transactions count (`ProcessedSpeaks`), and the accounts after it are some accounts that agree in stake and pending stake with what `Process` leaves (`BlockSequel`).
- RlpBuffer.EncBuffer.EncodeValue: asks for an output below 2^64 bytes, the largest that Appendix B encodes; negative big integers, which the source refuses, are outside the type.
- ConfigCompat.CheckCompatible: asks for configurations for which the search ends, by the exact condition of `SearchEndsIff`.
- `metadata/epochblockhashes.go`, child-hash lists and the slot-number index of the database.
- RLP reflection and type cache, struct tags, pointers, and the stream decoder.
- p2p, downloader, RPC, node lifecycle, API server, metrics exporters, transaction pool and the `consensus/pos.go` event loop: input, output and timing.
- Sample statistics (mean, percentiles, variance), fork-order validation and formatting helpers: they would only add easy members.
