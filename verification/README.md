# PegNet: verified model

PegNet is a network of assets whose prices are agreed on by miners. Every block, miners submit oracle
price records (OPRs) with a proof of work; a grading procedure picks winners, who are paid in PEG. This
project models the parts of the reference implementation that carry its hard guarantees and proves
those guarantees with Dafny. Check it with `dafny verify dfyconfig.toml`.

Code that changes state in place is modelled in place: the message codec, the graded blocks, the
nonce counter, the rankings, the miner, the entry writer, the conversion set, the balance tracker,
the chain follower, the syncing grader and the statistics are classes with loops, each method proved
against a specification function; the properties of those functions are lemmas. The concurrent
protocol between coordinator, miners and collectors is a state machine with one step per action.

| file | what it models |
|---|---|
| `Common`, `Division`, `Sequences`, `StableSort`, `Radix` | machine integers, floor division, repetition-free sequences, the stable sort, positional numerals |
| `Varint`, `Wire`, `Content`, `Codec`, `UnknownRecords` | the protobuf codec of an OPR: varints, fields, messages, the marshalling code, unknown records |
| `WireForm`, `WireErrors` | the exact form of a serialized message, and what a reader refuses |
| `Base58`, `FactoidAddress` | base58 and Factoid addresses |
| `Grading`, `Ranking`, `Averages`, `GradedBlock` | selection, elimination, what a ranking is, averages and grades, the block object and its payouts |
| `Selection`, `PriceUnits`, `BlockRanking` | which records are graded, what a grade measures, and what a graded block says of each record |
| `TieBreaking`, `BlockOrder` | exactly when the final order, and a graded block, show the order of arrival |
| `LegacyGrading` | the older copy of the grading procedure, and its agreement with the newer one |
| `Staking` | the grading of staking records |
| `Nonce`, `Aggregator`, `BlockWriter`, `PegnetMining` | nonces, rankings and their merge, the writer of a block, a miner |
| `MiningProtocol`, `MiningSafety`, `MiningTheorems` | the protocol, its invariant, and what follows for every run |
| `MiningCollection`, `MinedBlocks`, `MinedRecords`, `SharedNonces` | whom a collector hears, what is written for a block and accepted by graders, and when a nonce can be written twice |
| `MiningProgress`, `MiningHandOver`, `MiningDeadlock` | when the protocol moves on, that every hand-over ends, and when it can get stuck |
| `Conversions`, `TxId`, `ConversionSupply`, `TxOrder` | rate conversion and refunds, transaction ids, sharing the PEG bank, who gets the rest of it |
| `Ledger`, `Balances`, `EntryBlocks`, `QuickGrading` | what a chain owes to whom, the balances, following the chain head, the syncing grader |
| `MiningStats` | the statistics of the latest blocks |

Conventions. Integers are unbounded in Dafny, so every width that matters is written out: varint
shifts, `int32` sign extension, `int64` overflow tests, `uint64` sums. Hash functions, proof of work
and the reading of an entry are parameters: every theorem holds for all of them. Prices, averages and
grades are reals. A failing request, an unordered map and a choice of the scheduler are arbitrary
choices, so what is proved holds for each of them.

Results that differ from what one might expect:

- A misreporting copy of a record can remove an honest one, because duplicates are dropped before
  difficulties are checked (`Grading.Shadowed`); an honest record of an identity is left exactly if the
  first one is honest (`Grading.HonestSurvivesIff`).
- Records with equal difficulty can be graded in the order in which they arrived. That happens exactly if
  the cutoff separates two of them, or no pass that both take part in scores them differently
  (`BlockOrder.BlockInvisibleIff`, `TieBreaking.ArrivalInvisibleIff`); `BlockOrder.SomeBlockShows` gives
  a block for every version.
- The payouts of a limited conversion can depend on the iteration order of a Go map: the txids `1-h`
  and `01-h` are different keys with the same sort key (`ConversionSupply.PaddedTie`).
  `ConversionSupply.OrderFreeIff` says exactly when the order is invisible.
- With a limited bank somebody can get more than they ask for: the dust goes to one highest request in
  whole (`ConversionSupply.SomebodyOverpaid`). `ConversionSupply.OverpaidIff` says exactly when.
- A comment in `Payouts` says that ties go to the highest entry hash; the code gives the dust to the
  lowest, and the model follows the code.
- A nonce starts with one byte of the miner's number, so miners 0 and 256 try the same ones and a block
  can get one nonce twice, exactly from 257 miners and two records on (`SharedNonces.AlwaysDistinctIff`).
- A collector compares what it has received with the miners registered so far, so with two miners or
  more it can end before all have registered, and the others are not written
  (`MiningDeadlock.MissesIff`). It hears exactly those registered by then
  (`MiningCollection.HeardIffRegistered`).
- The rankings that come too late stay in the writer's channel. With at least two miners more than it
  holds, the channel can fill up, and coordinator and miners then wait for each other for good
  (`MiningDeadlock.StuckRun`); with fewer they never do (`MiningDeadlock.StuckIff`).
- The comment on duplicates in the staking grader speaks of nonce and hash; the code compares coinbase
  addresses, and the model follows the code.

## Model

| member | source | states |
|---|---|---|
| Varint.DecodeEncode | modules/opr/V2Content.pb.go:187-195 | decoding an encoded value, with anything behind it, gives the value and the exact byte count |
| Varint.EncodedLength | modules/opr/V2Content.pb.go:187-195 | no uint64 needs more than ten bytes, so every one is accepted by the decoder's limit |
| WireForm.VarintBytes | modules/opr/V2Content.pb.go:187-195 | byte i of a varint is the i-th group of seven bits of the value, with 128 added on all but the last byte, and no group is wasted |
| Varint.Sov | modules/opr/V2Content.pb.go:232-241 | the size loop counts exactly the bytes the encoder emits |
| Varint.Put | modules/opr/V2Content.pb.go:187-195 | the in-place encoder loop writes those bytes at its offset, returns the index behind them and touches nothing else |
| Varint.Get | modules/opr/V2Content.pb.go:245-273 | the shift loop reads the sum of the 7-bit groups modulo 2^64, fails at the end of the buffer and on an eleventh byte, and never reads outside the buffer |
| Varint.DecodeLocal | modules/opr/V2Content.pb.go:245-273 | a successful read depends only on the bytes it consumed |
| Wire.SkipLocal | modules/opr/V2Content.pb.go:490-594 | skipping depends only on the bytes it consumes, however deep groups are nested |
| Wire.ParseFieldLocal | modules/opr/V2Content.pb.go:245-489 | parsing one field depends only on the bytes of that field, wherever it stands in a buffer |
| Wire.FieldsConcat | modules/opr/V2Content.pb.go:245-489 | two accepted buffers in a row hold the fields of the first and then those of the second |
| UnknownRecords.SkipPrint | modules/opr/V2Content.pb.go:490-594 | an independently written record of any wire type, groups nested to any depth, is skipped exactly to its last byte |
| UnknownRecords.SkipMembersPrint | modules/opr/V2Content.pb.go:552-583 | the members of a group are skipped one by one up to and including its end tag |
| UnknownRecords.UnknownRecordsKept | modules/opr/V2Content.pb.go:465-482 | a message followed by any well-formed records it does not know is read as that message with exactly those bytes kept |
| Codec.SkipV2Content | modules/opr/V2Content.pb.go:490-594 | the recursive skip loop terminates on every non-empty slice and returns the size or the error of the specification |
| Codec.V2Content.Size | modules/opr/V2Content.pb.go:196-230 | the computed size is the length of the serialized message, negative heights included |
| Codec.V2Content.MarshalTo | modules/opr/V2Content.pb.go:134-185 | writes the serialized message at the front of the buffer, exactly Size() bytes, and nothing behind it; without unknown bytes these are the fields that WireForm.Expected lists, by number, wire type, varint and content |
| Codec.V2Content.PackAssets | modules/opr/V2Content.pb.go:164-180 | the temporary ten-bytes-per-asset buffer holds the packed assets |
| Codec.V2Content.Marshal | modules/opr/V2Content.pb.go:124-132 | returns a new buffer filled completely by the serialized message, field by field as listed |
| Codec.V2Content.UnmarshalField | modules/opr/V2Content.pb.go:245-489 | one turn of the parser loop consumes one complete field and applies it to the message, or reports the field's error |
| Codec.V2Content.Unmarshal | modules/opr/V2Content.pb.go:245-489 | for every buffer the parser terminates without an index outside it; on success every byte was consumed and the message is the old one with all fields applied in order |
| WireErrors.VarintFate | modules/opr/V2Content.pb.go:245-273 | a varint ends at its first byte below 128 and is the sum of the low seven bits of each byte; it is refused exactly if the first ten bytes hold no such byte or the buffer ends before |
| WireErrors.TagFate | modules/opr/V2Content.pb.go:268-482 | which error a tag draws, by its number and wire type: an end tag, a number that is not positive, a known number with a wrong type, an unknown one with type 6 or 7 |
| WireErrors.LengthFate | modules/opr/V2Content.pb.go:279-305 | a length of 2^63 or more is invalid, one past the end of the buffer is an unexpected end, and any other text is accepted as those bytes |
| WireErrors.FirstRefused | modules/opr/V2Content.pb.go:245-489 | the first field that is refused decides the error of the buffer, whatever follows |
| Content.RoundTrip | modules/opr/V2Content.pb.go:124-185 | parsing a serialized message gives the message back: negative heights, empty lists, any assets, and unknown fields kept verbatim |
| WireForm.WrittenFields | modules/opr/V2Content.pb.go:134-185 | which bytes are written: address (1), id (2) and height (3) once each unless empty or zero, every winner (4) in order, all assets packed in one field (5), ascending, then the unknown bytes; a negative height is extended to 64 bits |
| Content.UnknownKept | modules/opr/V2Content.pb.go:465-482 | the unknown bytes any accepted buffer leaves behind are again complete unknown fields |
| Content.Reencode | modules/opr/V2Content.pb.go:134-185 | whatever buffer was accepted, writing the message and reading it again changes nothing |
| Content.UnmarshalConcat | modules/opr/V2Content.pb.go:245-489 | parsing two accepted buffers one after the other into a message is parsing their concatenation |
| Content.Merge | modules/opr/V2Content.pb.go:245-489 | merging means: each scalar takes its last value, winners, assets and unknown bytes are appended |
| Content.PackedOrNot | modules/opr/V2Content.pb.go:389-464 | assets sent packed and assets sent one by one decode identically into any message |
| Radix.RebaseBack | modules/factoidaddress/base58.go:16-74 | the radix conversion with one leading zero per leading zero is undone by the opposite conversion, for any two bases |
| Base58.Alphabet | modules/factoidaddress/base58.go:80-118 | letter d of the 58-letter alphabet is the letter the encoder writes for digit d, 0, O, I and l left out |
| Base58.Base58Encode | modules/factoidaddress/base58.go:48-74 | the division loop, the zero loop and the in-place reversal compute the encoding |
| Base58.Base58Decode | modules/factoidaddress/base58.go:16-45 | the evaluation loop and the zero count compute the decoding, the empty slice for a character outside the alphabet |
| Base58.DecodeEncode | modules/factoidaddress/base58.go:16-74 | decoding the encoding of any byte string gives it back, leading zeros included |
| Base58.EncodeDecode | modules/factoidaddress/base58.go:16-74 | encoding the decoding of any string over the alphabet gives it back |
| FactoidAddress.EncodeValid | modules/factoidaddress/factoidaddress.go:13-68 | exactly the 32-byte hashes have an address, and that address passes the checks, whatever the hash function is |
| FactoidAddress.ValidIsEncoded | modules/factoidaddress/factoidaddress.go:13-42 | a string that passes the checks is the address of one 32-byte hash and the only one |
| FactoidAddress.AddressLayout | modules/factoidaddress/factoidaddress.go:44-68 | an address decodes to the bytes 5f b1, the hash, and the first four bytes of the double hash of both |
| FactoidAddress.StartsWithFA | modules/factoidaddress/factoidaddress.go:44-68 | for every 32-byte hash and every hash function the address has 52 letters and starts with FA |
| StableSort.StableUnique | modules/grader/v5GradedBlock.go:50-52 | whatever is sorted by key and keeps equal keys in order is the sort used here: the library's stable sort has no other result |
| Grading.DistinctKeepsFirst | modules/grader/baseGradedBlock.go:79-92 | the first record of every nonce and OPR hash is kept |
| Grading.DistinctResult | modules/grader/baseGradedBlock.go:79-92 | only submitted records are kept and no two with the same nonce and OPR hash |
| Selection.RecordKept | modules/grader/baseGradedBlock.go:79-92 | of records coming in one by one, another is kept behind the others if and only if none before has the same nonce and OPR hash, read in a row |
| Selection.CutoffKeeps | modules/grader/baseGradedBlock.go:53-75 | of the records that give their true difficulty the cutoff many most difficult are graded, or all if there are fewer, the most difficult first |
| Grading.Shadowed | modules/grader/baseGradedBlock.go:53-92 | deduplication precedes the honesty check, so a lying copy that comes first removes an honest record |
| Grading.HonestSurvivesIff | modules/grader/baseGradedBlock.go:53-92 | of an identity with an honest record, an honest record is left after deduplication if and only if the first record of that identity is honest |
| Grading.TopHonestIs | modules/grader/baseGradedBlock.go:53-75 | for a positive limit the lazy selection is filter-honest, stable-sort, take-limit, and hashes at most limit plus the number of misreported records |
| Grading.ArrivalOrder | modules/grader/baseGradedBlock.go:53-92 | with distinct identities and distinct honest difficulties the selection does not depend on the arrival order |
| Grading.PassOrdered | modules/grader/v2GradedBlock.go:42-53 | after a pass the records are ordered by grade and, within equal grades, by falling difficulty |
| Grading.PassResult | modules/grader/v2GradedBlock.go:42-53 | a pass loses nobody and every record carries its grade against the average of that pass's survivors |
| Grading.LaterPassesReorder | modules/grader/v2GradedBlock.go:42-53 | passes over the first m records only reorder those; nobody enters or leaves them and nothing behind them moves |
| Grading.Eliminated | modules/grader/v2GradedBlock.go:33-60 | the record left at index k-1 is the worst of the k survivors by (grade, then least difficulty) with the grade of pass k, and no later pass moves it |
| Grading.EliminationPermutes | modules/grader/v2GradedBlock.go:33-60 | the whole procedure is a permutation that leaves everything past the cutoff in place |
| Ranking.EliminationRanks | modules/grader/v2GradedBlock.go:33-60 | the loop yields a ranking in the declarative sense, for all records: none is better than any above it, judged by the field that was left when its place was decided |
| Ranking.RankingUnique | modules/grader/v2GradedBlock.go:33-60 | records of which no two different ones report the same difficulty have only one such ranking |
| TieBreaking.ArrivalInvisibleIff | modules/grader/v2GradedBlock.go:33-60 | for any one score, the final order is independent of the order of arrival if and only if any two different records with equal difficulty were scored differently by some pass that both took part in |
| TieBreaking.AnyScoreIff | modules/grader/v2GradedBlock.go:33-60 | it is independent for every score if and only if records with equal difficulty are the same record |
| Averages.TermsAgree | opr/grading.go:93-116 | the signed band of the older code and the absolute band of the newer give the same term |
| Averages.ScoresAgree | opr/grading.go:93-116 | so both compute the same grade for every record, version and band |
| PriceUnits.CostOf | modules/grader/v2_util.go:92-108 | a price that is x off the average, in proportion, costs the fourth power of x in V1 and without the band, and with it the fourth power of what x exceeds one hundredth by |
| PriceUnits.FreeIff | modules/grader/v2_util.go:92-108 | with the band a price is free if and only if it is between 0.99 and 1.01 times the average |
| PriceUnits.OneOff | opr/grading.go:93-106 | a record that is x off in any one asset and at the average of all others has exactly that cost as its grade |
| PriceUnits.PerfectIff | modules/grader/v5_util.go:94-109 | with the band a grade is never negative, and zero if and only if every price with a positive average is within a hundredth of it |
| PriceUnits.ScoreInUnit | modules/grader/v5_util.go:94-149 | no version's grade changes when the prices of one asset are given in another unit in every record |
| PriceUnits.OrderInUnit | modules/grader/v5GradedBlock.go:33-60 | so the whole elimination goes the same way, grade for grade, whatever the units |
| Averages.VersionRanking | modules/grader/v5GradedBlock.go:33-60 | for V1, V2 and V5 the final order is such a ranking, and if no two different records report the same difficulty it is independent of the order of the input |
| Averages.DivisorPositive | modules/grader/v5_util.go:120-149 | the divisor of the trimmed mean is positive for every n of at least 4 |
| Averages.TrimmedRobust | modules/grader/v5_util.go:111-149 | for n of at least 3 and p = n/10+1, at most p prices above hi and at most p below lo leave the average in [lo, hi] |
| PriceUnits.MeanMoves | modules/grader/v1_util.go:83-107 | the mean of equal prices is that price, and one record moves the mean by the change of its absolute price over the number of records |
| PriceUnits.TrimmedMoves | modules/grader/v5_util.go:111-126 | of the sorted prices each that is not trimmed moves the trimmed mean by its share of the change, and the p lowest and p highest do not move it |
| Averages.AverageV1 | modules/grader/v1_util.go:83-107 | the accumulation loops compute the mean of absolute prices, column by column |
| Averages.TrimmedMeanFloat | modules/grader/v5_util.go:111-126 | the sorting and summing loop computes the mean without the p lowest and highest, the middle value for up to three |
| Averages.AverageV5 | modules/grader/v5_util.go:129-149 | the column loops compute the trimmed mean of every asset |
| Averages.GradeRecord | modules/grader/v5_util.go:94-109 | the loop over the assets writes the sum of fourth powers of the banded relative deviations into the grade and changes nothing else |
| GradedBlock.PayoutOrder | modules/grader/v1_util.go:11-23 | winners and nobody else are paid, earlier places never less than later ones |
| GradedBlock.BlockPaysReward | modules/grader/v1_util.go:11-23 | a block with enough honest records pays exactly 5000 PEG in V1 and V2 and 9000 PEG in V5, whatever the cutoff |
| BlockRanking.BlockRanked | modules/grader/v2GradedBlock.go:33-60 | in a graded block every record is no better, by score against the field it was placed in and then by difficulty, than any record above it; it carries that score, its place, and the payout of its place: 800, 600 and 450 PEG in V1, 200 in V2, 360 in V5 |
| BlockRanking.StakeRanked | modules/graderStake/s1GradedBlock.go:33-59 | in a graded staking block of 25 or more every record within the cutoff carries its score against the field it was placed in, banded from 25 records on, and no record above it scores worse in that field |
| GradedBlock.BlockOrderIndependent | modules/grader/v2grader.go:47-62 | two arrival orders of the same records give the same graded block |
| BlockOrder.BlockInvisibleIff | modules/grader/v2grader.go:47-62 | of records that differ in nonce or OPR hash, enough of them honest, the graded block, places and payouts included, is independent of the order of arrival if and only if no difficulty stands on both sides of the cutoff and every tie among those graded is decided by a pass, with the scores of the version |
| BlockOrder.DifficultiesDecideIff | modules/grader/v2GradedBlock.go:33-60 | from the difficulties alone, for each version and enough records, independence can be told if and only if all are different |
| BlockOrder.TwinsShow | modules/grader/v2grader.go:47-62 | a graded block with two different records of equal difficulty and equal prices always depends on the order of arrival |
| BlockOrder.SomeBlockShows | modules/grader/v2grader.go:47-62 | for each version there is such a block, with exactly as many records as win |
| GradedBlock.WinnerSet | modules/grader/v2GradedBlock.go:25-60 | the set of 25 winners (10 in V1) is fixed by the pass that leaves that many; later passes only order it |
| GradedBlock.Block.FilterDuplicates | modules/grader/baseGradedBlock.go:79-92 | the seen-map loop keeps the first record of each identity, in order |
| GradedBlock.Block.SortByDifficulty | modules/grader/baseGradedBlock.go:53-75 | the loop replaces the records by the lazily selected honest top and counts the hashes it computes |
| GradedBlock.Block.Grade | modules/grader/v5GradedBlock.go:33-60 | the in-place loop computes the recursive elimination from the cutoff down, then positions and payouts; too few records stay as they are |
| GradedBlock.Block.OnePass | modules/grader/v1GradedBlock.go:48-55 | one pass re-grades and re-sorts the first i records in place and leaves the rest alone |
| GradedBlock.Block.CreateShortHashes | modules/grader/baseGradedBlock.go:35-43 | the first eight bytes of the entry hashes of the winners, in order |
| GradedBlock.GradeCustom | modules/grader/v2grader.go:47-62 | the pipeline clone, deduplicate, select, grade; the previous winners stay announced when there are too few records |
| LegacyGrading.RemoveDuplicateSubmissions | opr/grading.go:307-319 | the older loop removes the same duplicates |
| LegacyGrading.CalculateGrade | opr/grading.go:93-106 | the loop over the assets computes the grade of one record against the averages and changes nothing else |
| LegacyGrading.OnePass | opr/grading.go:143-304 | one turn of an elimination loop averages, grades every survivor and sorts twice, as the older procedure says |
| LegacyGrading.GradeMinimum | opr/grading.go:143-304 | the older selection and elimination loops compute the older procedure, for V1, V2 and V5 |
| LegacyGrading.GradersAgree | opr/grading.go:120-304 | the older and the newer grader give the same records in the same order with the same grades whenever there are enough honest ones, and otherwise both give no winners |
| Nonce.NoncesDistinct | mining/miner.go:80-106 | two counts or two id bytes never give the same nonce |
| Nonce.NonceBytes | mining/miner.go:80-106 | the first byte of a nonce is the id and the byte with i bytes behind it is the count's digit of weight 256^i, without leading zeros |
| Nonce.NonceIncrementer.NextNonce | mining/miner.go:90-106 | after n calls the slice is the id byte followed by the minimal big-endian form of n, a longer slice replacing the old one only on overflow |
| Aggregator.TopOfParts | opr/aggregator.go:43-60 | the largest of a whole can be found from the largest of a part, provided the part kept at least as many |
| Aggregator.TopIs | opr/aggregator.go:108-114 | what counts as the largest k: k of them in descending order, and nothing left out is larger |
| Aggregator.NonceRanking.AddNonce | opr/aggregator.go:70-106 | adds exactly if the minimum is met and there is room or the worst is not better; the worst difficulty and index stay the true minimum and the list stays the keep best of everything offered; the nonce is copied, so counting on in place does not change it |
| Aggregator.NonceRanking.ReplaceWorst | opr/aggregator.go:92-104 | the worst slot is overwritten and the new worst found by the scan |
| Aggregator.NonceRanking.GetNonces | opr/aggregator.go:63-66 | returns the stored nonces, best first; their difficulties are the keep largest of everything offered |
| Aggregator.MergeNonceRankings | opr/aggregator.go:43-60 | the merged ranking stands for everything offered to any miner, cancelled miners left out, if each kept at least as many as the merge |
| Aggregator.CollectTop | mining/entryWriter.go:131-137 | what is written are, in descending order, the keep largest difficulties of everything offered to any miner |
| BlockWriter.EntryWriter.NextBlockWriter | mining/entryWriter.go:76-84 | all callers get the same next writer, made on the first call |
| BlockWriter.EntryWriter.SetOPR | mining/entryWriter.go:97-103 | the first record stays |
| BlockWriter.EntryWriter.CollectAndWrite | mining/entryWriter.go:107-152 | runs once; the wait ends with the first arrival after which as many rankings have come as miners are registered by then, and the best of everything offered to those is written |
| PegnetMining.PegnetMiner.HandleCommand | mining/miner.go:171-208 | each command changes the object exactly as the protocol's transition says and writes to nothing else; a reset makes new objects, and only with it takes a new number of records to keep effect |
| PegnetMining.PegnetMiner.HandleBatch | mining/miner.go:171-178 | a batch is its commands in order; a start batch ends with a fresh ranking and counter, a stop batch sends the ranking it was filling |
| PegnetMining.PegnetMiner.Attempt | mining/miner.go:156-166 | one turn of the mining loop offers exactly the next nonce of this miner, with its difficulty, if it passes the minimum |
| PegnetMining.StartedMiner | mining/miner.go:171-208 | whatever a miner was doing, a start batch leaves it set up for that block and running |
| MiningSafety.InitInv | mining/coordinator.go:112-124 | the launch state satisfies the invariant of the protocol |
| MiningSafety.StepInv | mining/coordinator.go:124-231 | every step of the coordinator, of any miner and of any collector keeps the invariant |
| MiningSafety.RunInv | mining/coordinator.go:124-231 | so every run keeps it, in every interleaving |
| MiningSafety.HashingMiner | mining/miner.go:148-166 | a nonce is only tried for the block the miner was last started for, and only into a ranking not yet sent |
| MiningSafety.Submitting | mining/miner.go:195-200 | a submission happens once per block and hands over exactly what was found for that block |
| MiningTheorems.StreamsAlternate | mining/coordinator.go:145-230 | in every run each miner takes start 0, stop 0, start 1, stop 1, and so on, nothing lost, doubled or reordered, whatever minutes are missed or repeated and whatever OPR creation fails |
| MiningTheorems.BlocksMade | mining/coordinator.go:157-193 | in every run there is one block for each record made, in order, and its start batch carries that record's OPR hash and minimum difficulty |
| MiningTheorems.OffersTried | mining/miner.go:156-166 | what is offered are exactly the nonces tried that pass the minimum, none twice |
| MiningTheorems.SentForOneBlock | mining/coordinator.go:145-230 | of each miner at most one ranking per block is sent, its own, holding exactly the nonces it tried that pass under the OPR hash and the minimum of the record made for that block |
| MiningTheorems.SentIsFinal | mining/miner.go:195-200 | once a ranking is sent no miner offers anything to it any more, in any run: what it was offered stays the same |
| MiningTheorems.Barrier | mining/coordinator.go:200-230 | before the next block is started every miner has sent its ranking for this one, once |
| MiningTheorems.SendNeverBlocks | mining/coordinator.go:187-190 | handing out a batch never blocks: at most one earlier batch is still on any queue |
| MiningTheorems.NothingNil | mining/miner.go:156-200 | hashing and submitting never meet a nil stats object or channel, and statistics go to the block of the writer |
| MiningTheorems.WrittenRecords | mining/entryWriter.go:118-152 | with at most 256 miners any selection from the rankings collected for a block has distinct nonces and genuine difficulties under the OPR hash of the record made for that block, above its minimum |
| MiningCollection.RegisteredBound | mining/entryWriter.go:88-94 | the registrations of a block never exceed the number of miners, and reach it exactly when every miner has registered |
| MiningCollection.HeardIffRegistered | mining/entryWriter.go:118-129 | when the collector of a block ends, it has heard a miner if and only if that miner is registered by then |
| MiningCollection.LateIsMissed | mining/entryWriter.go:118-129 | afterwards it receives nothing more, in any run, so a miner that registers later is not heard |
| MiningCollection.AllCollected | mining/entryWriter.go:118-129 | if every miner is registered while the collector still waits, it hears every miner before it ends |
| MinedBlocks.SeenByCollector | mining/entryWriter.go:118-129 | in every run a collector ends with the first ranking after which it has received as many as are registered at that moment |
| MinedBlocks.WriteBlock | mining/entryWriter.go:107-152 | the writer object, given the rankings a run of the protocol sends it, writes the keep largest difficulties of all the collected miners tried for the block, with distinct nonces that have them under the OPR hash of the record made for it |
| MinedRecords.MinedAccepted | opr/opr.go:447-461 | no grader drops a record written for a block: all are honest about their difficulty and none is a duplicate of another |
| SharedNonces.AlwaysDistinctIff | mining/miner.go:80-88 | the records written for a block always have distinct nonces, for every hash function and every run, if and only if there are at most 256 miners or only one record is kept |
| SharedNonces.NonceRepeats | mining/miner.go:80-88 | with 257 miners, two records and one particular hash there is a run in which miners 0 and 256 put the same nonce into a block twice |
| MiningProgress.NeverStuck | mining/coordinator.go:187-230 | with at most one miner more than the channel of a writer holds, some step of the hand-over can be taken in every state between minute events |
| MiningDeadlock.MissesIff | mining/entryWriter.go:118-129 | a collector can end without hearing every miner if and only if there are at least two |
| MiningDeadlock.StuckRun | mining/coordinator.go:200-230 | with at least two miners more than the channel holds there is a run after which no goroutine can ever move again |
| MiningDeadlock.StuckIff | mining/coordinator.go:187-230 | the protocol can get stuck between minute events if and only if there are at least two miners more than the channel holds |
| MiningHandOver.ProgressDecreases | mining/coordinator.go:187-230 | every step of a hand-over decreases a measure of what is left to do |
| MiningHandOver.HandOverBounded | mining/coordinator.go:187-230 | so between two minute events, in any interleaving and however many nonces are tried, no more such steps are taken than the measure says |
| MiningHandOver.HandOverEnds | mining/coordinator.go:187-230 | with at most one miner more than the channel holds, every state can be brought back to waiting for a minute event within that many steps |
| Conversions.ConvertIs | modules/conversions/conversions.go:16-44 | the result is the largest amount worth no more than the input |
| Conversions.ConvertFails | modules/conversions/conversions.go:17-43 | it fails exactly for a negative amount, a zero rate, or a result of 2^63 or more |
| Conversions.ConvertDetour | modules/conversions/conversions.go:16-44 | a detour over a third asset never gives more than the direct way and cannot overflow where that does not |
| Conversions.ConvertBack | modules/conversions/conversions.go:16-44 | there and back gives no more than went in and loses less than one unit of each asset is worth |
| Conversions.RefundIs | modules/conversions/conversionlimit.go:215-220 | for a yield in range the subtraction is exact and the second conversion cannot overflow |
| Conversions.RefundNeverExceeds | modules/conversions/conversionlimit.go:215-220 | the refund is not negative, and with the yield converted back it never exceeds the input |
| Conversions.RefundOrder | modules/conversions/conversionlimit.go:215-220 | more yield never gives more refund, and a full yield gives none: the dust stays lost |
| Conversions.RefundAbove | modules/conversions/conversionlimit.go:215-220 | a yield above the largest possible one gives no refund |
| TxId.SplitFormat | modules/transactionid/txid.go:42-80 | splitting undoes formatting, with any padding, exactly for indexes from 0 to 2^31-1 and proper hashes |
| TxId.FormatInjective | modules/transactionid/txid.go:68-95 | different (index, hash) pairs give different txids, and the txid is sorted by that pair |
| TxId.FormatSplit | modules/transactionid/txid.go:42-80 | of the txids that split, formatting gives back exactly those without sign and leading zeros |
| TxId.KeyOrder | modules/transactionid/txid.go:85-95 | the sort key, hash then index, is a total order |
| TxOrder.SortTwo | modules/transactionid/txid.go:85-95 | of two proper ids that one comes first whose hash has the smaller character at the first difference, and of one hash the one with the smaller index |
| TxOrder.SortedByHash | modules/transactionid/txid.go:85-95 | in a sorted list no proper id stands behind one that it is lower than in this sense |
| TxId.SortIsStable | modules/transactionid/txid.go:85-95 | the result is sorted, a permutation, and keeps ids with equal keys in order |
| TxId.SortFirst | modules/transactionid/txid.go:85-95 | in front is the first of those that nothing is less than |
| ConversionSupply.ShareIs | modules/conversions/conversionlimit.go:161-173 | a request that is part of the total gets its exact floor proportion, without truncation |
| ConversionSupply.SharesFit | modules/conversions/conversionlimit.go:118-128 | no partial sum of shares exceeds the bank, and less than one unit per request is left |
| ConversionSupply.WinnerFirst | modules/conversions/conversionlimit.go:131-154 | the dust goes to a highest request, of those with the smallest key |
| TxOrder.DustToLowest | modules/conversions/conversionlimit.go:131-156 | every canonical request gets its floor proportion, and what is left of the bank goes on top to the one with the lowest hash, then the lowest index, among those who ask for the most |
| ConversionSupply.FullOrdersIff | modules/conversions/conversionlimit.go:102-157 | everybody gets exactly what they ask for if and only if the requests together fit the bank |
| ConversionSupply.ConversionSupplySet.FillOrders | modules/conversions/conversionlimit.go:110-116 | the loop over the map copies every request, in whatever order it runs |
| ConversionSupply.BankGoesOut | modules/conversions/conversionlimit.go:118-156 | otherwise the payouts add up to the bank: the exact floor proportion for everyone, and the dust, less than one unit per request, for the winner |
| ConversionSupply.OverpaidIff | modules/conversions/conversionlimit.go:102-157 | a request gets more than it asks for if and only if it gets the dust and the cuts of the others, each rounded up to a unit, exceed the shortage |
| ConversionSupply.SomebodyOverpaid | modules/conversions/conversionlimit.go:118-156 | three requests of one unit and a bank of two: one of them gets two |
| ConversionSupply.LargerGetsMore | modules/conversions/conversionlimit.go:102-157 | a strictly larger request never gets a smaller payout |
| ConversionSupply.OrderFreeIff | modules/conversions/conversionlimit.go:102-157 | the map's iteration order is invisible if and only if nothing is cut, there is no dust, or one highest request has the smallest key alone |
| ConversionSupply.CanonicalOrderFree | modules/conversions/conversionlimit.go:102-157 | with txids as FormatTxID makes them it is always invisible |
| ConversionSupply.PaddedTie | modules/conversions/conversionlimit.go:131-154 | the txids 1-h and 01-h both verify but tie, and a bank of one then goes to whichever the loop meets first |
| ConversionSupply.ConversionSupplySet.AddConversion | modules/conversions/conversionlimit.go:80-91 | a txid is added exactly if it verifies and is new, and the running total stays the sum of the requests |
| ConversionSupply.ConversionSupplySet.Payouts | modules/conversions/conversionlimit.go:102-157 | the loops over the map compute the payouts for the order they happen to run in; no uint64 sum or difference leaves its range, and what is paid is what was asked exactly if all of it fits the bank |
| Ledger.NearestValid | opr/grader.go:451-492 | the previous winners a block is checked against are the first 10 (V1) or 25 graded records, in order, of the nearest valid block before it, and none before the first |
| Ledger.ReadOne | opr/grader.go:302-325 | an entry is a record if it reads as one with a price for every asset of its height |
| Ledger.ReadInOrder | opr/grader.go:302-325 | the records of a block are read entry by entry, in order, each for itself |
| Ledger.BlockAtPrefix | opr/grader.go:302-339 | whether a block is valid and how it is graded depends only on the chain before it |
| BlockRanking.ChainBlockIs | opr/grader.go:302-339 | an entry block is a valid OPR block if and only if the block grader finds 10 (V1) or 25 winners among its valid records, and then its graded list is that grader's |
| Ledger.RewardsPostPlaces | opr/grader.go:277-289 | a block whose winners have accounts makes one posting per winning place, to the account of the record there, of 800, 600 and 450 PEG in V1, 200 in V2 and 360 in V5 |
| Ledger.OwedIsEarned | opr/grading.go:343-383 | what the postings of a list of blocks give an account is the worth of the winning places whose address is that account's |
| Ledger.RewardsConserved | opr/grading.go:343-383 | what is owed for a list of blocks is one block reward each, 5000 or 9000 PEG by version |
| Balances.BalanceTracker.AddToBalance | balances/balances.go:40-67 | fails exactly for a bad address or a result outside 0 to 2^63-1; otherwise that account changes by the value and no other does, and the total stays the sum of all changes |
| Balances.BalanceTracker.GetBalance | balances/balances.go:71-80 | the sum of all changes of the account, -1 for a bad address |
| EntryBlocks.EntryBlockSync.SyncBlocks | opr/entryblocksync.go:26-64 | the queue becomes exactly the blocks between the parsed one and the newest known one, in chain order; a failure changes nothing and an old head adds nothing |
| EntryBlocks.EntryBlockSync.WalkBack | opr/entryblocksync.go:36-57 | the backward walk ends at the target or at the start of the chain and meets every block in between once |
| EntryBlocks.EntryBlockSync.AddNewHeadMarker | opr/entryblocksync.go:101-107 | a block older than the target is ignored and any other queued; the queue stays the chain segment if and only if the block is older or the next one |
| EntryBlocks.EntryBlockSync.BlockParsed | opr/entryblocksync.go:85-93 | the current block advances by one along the chain |
| QuickGrading.OPRBlockStore.FetchOPRBlock | opr/oprblocks.go:73-107 | gives the stored graded list or the empty mark; a failing read looks like a missing block |
| QuickGrading.QuickGrader.GetPreviousWinners | opr/grader.go:451-492 | the backward search finds the last block below the height |
| QuickGrading.QuickGrader.FetchOPRBlock | opr/grader.go:302-339 | without a failure, the valid OPR block of the entry block, or none |
| QuickGrading.QuickGrader.PayWinners | opr/grader.go:277-289 | every winning place is credited once, in order, to the address of its own record, with what that place is worth; it can only fail for an address without an account or a total beyond int64 |
| QuickGrading.QuickGrader.ProcessNext | opr/grader.go:233-293 | one queue element is stored, taken over, paid and removed together, or left for the next attempt |
| QuickGrading.QuickGrader.Sync | opr/grader.go:213-300 | whatever fails and whatever the store holds, it stays in step with the chain; success means everything known is parsed |
| QuickGrading.QuickGrader.InitialSync | opr/grader.go:138-147 | the first sync is tried until it succeeds, and every failed attempt leaves the object in step with the chain |
| QuickGrading.QuickGrader.Run | opr/grader.go:131-210 | after any number of first attempts and over any sequence of events, three attempts each, on a growing chain, it ends in step with the last chain |
| QuickGrading.PaidExactlyOnce | opr/grader.go:213-300 | the taken-over blocks are the valid blocks parsed, in chain order; every account holds its opening balance plus the worth of each winning place in them whose address is its own, once; all accounts together gained one block reward per valid block |
| QuickGrading.StoresDoNotMatter | opr/grader.go:243-258 | two graders that parsed the same blocks agree on every graded block and every reward, whatever their stores held |
| Staking.FirstOfAddressKept | modules/graderStake/baseGradedBlock.go:47-60 | the first record of every coinbase address is kept |
| Selection.StakeKept | modules/graderStake/baseGradedBlock.go:47-60 | another staking record is kept if and only if none before it has the same address |
| Staking.StakeIsElimination | modules/graderStake/s1GradedBlock.go:33-59 | the staking loop is the oracle graders' elimination for records without proof of work |
| Staking.StakeEliminated | modules/graderStake/s1GradedBlock.go:33-59 | pass k leaves the record with the largest grade of that pass at index k-1 for good |
| Staking.OneRewardPerAddress | modules/graderStake/s1GradedBlock.go:33-59 | no address is placed, and so paid, twice |
| Staking.StakeBlockPaysReward | modules/graderStake/s1_util.go:15-20 | with enough stakers a block pays exactly 4500 PEG |
| Staking.StakePlaces | modules/graderStake/s1_util.go:15-20 | every record of a graded staking block has its place, and the first 25 places 180 PEG each |
| Staking.StakeBlock.Grade | modules/graderStake/s1GradedBlock.go:33-59 | the in-place loop computes that elimination over the first records up to the cutoff and keeps the others behind them |
| Staking.GradeCustom | modules/graderStake/s1grader.go:48-56 | clone, deduplicate by address, grade |
| MiningStats.GlobalStatTracker.Fetch | mining/stats.go:144-152 | the binary search finds the bucket of a height if it is held, with the latest report of every coordinator |
| MiningStats.GlobalStatTracker.Insert | mining/stats.go:119-142 | the list stays strictly descending, complete for every block it holds, and at most 250 long |
| MiningStats.HeldIffHighest | mining/stats.go:119-142 | a block is held exactly if it was reported and fewer than 250 reported blocks are above it |
| MiningStats.LatestReport | mining/stats.go:119-142 | a bucket holds exactly the coordinators that reported for its block, each with its last report |

## Left out

- Network, HTTP, gob, JSON, configuration, wallet, command line, control panel and logging: input and output.
- LXRHash, SHA-256 and the checks of an entry (`ParseOPREntry`, `Validate`, `VerifyWinners`): parameters of the model.
- Floating point rounding: averages and grades are real numbers, and `int(float64(n)*0.1)` is n/10; with floats equal grades could compare differently.
- The message a failed `Unmarshal` leaves behind: only the error is specified; nil and empty slices are one value.
- Codec.V2Content.Marshal: a message of 2^63 bytes or more is excluded, since no Go slice can hold it; likewise Content.RoundTrip.
- Codec.SkipV2Content: an empty slice is excluded, since the source panics on it.
- Records shared by pointer: OPRs and SPRs are values, so `cloneOPRS` copies values and grading a clone cannot be seen through another reference.
- The V3 and V4 oracle graders and the S2 and S3 staking graders: the same loops with other checks of the entries.
- Cancelling a miner or the whole run, the network-based miner and forwarder: no step of the protocol.
- A submission and the sending of its statistics are one step, and the statistics of a block are counted by its submissions.
- PegnetMining.PegnetMiner.HandleCommand: keeping fewer than one record is excluded, since the source indexes an empty list then; and the writer's channel has room for at least one ranking.
- Aggregator.NonceRanking.GetNonces: ends the life of a ranking; the index of its worst entry is stale afterwards, as in the source.
- The four fetching threads of `ParallelFetchOPRsFromEBlock`: their results are sorted by entry, so one loop stands for them.
- Ledger: entry blocks are well linked and never withdrawn; burns and listeners after a sync are not modelled.
- QuickGrading.QuickGrader.Sync: a balance that cannot be updated ends the process in the source, and nothing is said about the state after it.
- QuickGrading.OPRBlockStore.FetchOPRBlock: `TotalNumberRecords` and the ungraded records are lost in the store, so agreement is about heights and graded lists.
- `Convert` of prices into rates, `TotalRequested`, `Payout` and the constants of PegNet 2: plain arithmetic.
- Difficulty estimates (`opr/difficulty.go`), price polling and the key scheme of the database: no exact contract.
