# A verified model of an Arbitrum Nitro node

A Dafny model of the parts of a Nitro node that decide what the chain is: how messages are packed into batches
and read back, how the node keeps its log and its view of the parent chain, how money moves for retryable tickets
and fees, and how the node validates, coordinates, prunes and defends its state.

The model follows the source's own form. Objects with mutable fields are classes whose methods are proved equal to
functions of the old state (databases are maps, loops are loops with invariants); the properties are lemmas about
those functions and about runs of them. Protocols between threads or processes are state machines, one step for
each stretch that holds a lock or is atomic in Redis, and the properties are about every run of the steps.

| files | what they model |
|---|---|
| `Types`, `Rlp`, `SequencerMessage` | messages, RLP strings and integers, the serialized batch and its segments |
| `Multiplexer`, `MultiplexerProperties` | the inbox multiplexer, with its caches, and a one-pass reference decoder |
| `BatchPoster`, `BatchRoundTrip` | building batches, and that they decode to what was put in |
| `Streamer`, `StreamerProperties`, `StreamerRuns`, `FeedProperties` | the message log, confirmed and feed messages, reorganizations |
| `Tracker`, `TrackerProperties`, `TrackerContents`, `InboxTracker` | delayed messages, batches and the log together: the abstract node, its invariant over all runs, what its operations take and leave, and the database that implements it |
| `DelayedSequencer` | forwarding of finalized delayed messages |
| `Balances`, `Retryables`, `RetryTx`, `Fees`, `TxProcessor` | retryable tickets from submission to redeem, gas charging and fee collection |
| `Validation`, `ValidationProperties`, `ValidationPositions`, `BlockValidator` | the block validator's three threads, staking updates and reorgs |
| `Coordinator`, `CoordinatorProperties` | sequencers that share a message count through Redis |
| `Positions`, `Bisection` | message counts and batch positions; challenges by bisection |
| `PriceCache`, `Das` | the price cache, the data availability committee |
| `Pruner`, `PrunedReads` | message pruning, and that what is pruned is not read again |

`dafny verify dfyconfig.toml` checks everything.

The main results:

- **Round trip.** A batch built and closed by the poster pops out of the multiplexer as exactly the messages that
  went in, with clocks moved to the nearest bound of the batch, and leaves the reader at the poster's next position
  (`BatchRoundTrip.PostedBatchIsRead`). Popping is one-pass decoding on any bytes (`BatchIsDecoded`), and
  forgetting all caches between pops changes nothing (`ResumeEquivalence`).
- **The node's invariant.** Every run of adding delayed messages, batches and feed messages and of reorganizations
  keeps the tables, counts, index, hash chain and log consistent (`TrackerProperties.ReachableInv`), and the
  database implements these operations (`InboxTracker.DbInboxTracker`). Batches and delayed messages are taken exactly
  under stated conditions (`BatchesAreTaken`, `DelayedIsTaken`), and what a batch reads is what the parent chain
  committed to (`ReadsWhatWasCommitted`).
- **The log.** The feed never changes a message (`FeedOnlyAppends`); what becomes of every feed message is exact
  (`FeedIsAdded`, `FeedJoins`, `FeedWaits`, `FeedContradicts`). A confirmed add settles the log (`ConfirmedLog`) and what
  waits (`ConfirmedMeetsQueue`), and batches are never rejected for a jump of their own (`BatchesNeverJump`).
- **Money.** No payment that the submission handler believes cannot fail does fail, whichever accounts coincide
  (`SubmissionAffordable`); the outcome of a submission is exact (`OutcomeOfSubmission`), and so is what everyone gains
  by a submission that the deposit covers (`FundedSubmission`) and by a redeem (`RefundBooks`, `SuccessfulRedeem`); a
  failed submission or redeem is undone; refunds from submission to redeem stay within the deposit
  (`TicketRefundsComeFromDeposit`); fees add up exactly (`FeesAddUp`).
- **Protocols.** In every interleaving the validator's valid state is the end of a chain of accepted validations
  (`ValidatedStateIsProven`), every turn of its loop is exact (`TurnOfLoop`), and sequencers never commit two messages
  at an index, nor while another one is chosen, nor hold different logs (`CommittedOnce`, `OnlyTheChosenCommits`,
  `LogsAgree`).
- **Where the code does less than it says.** The price refund of a submission is what its comment means exactly
  under the condition of `PriceRefundAsMeant`. The call value of a failed redeem goes back, which the code takes for
  granted, exactly under the condition of `FailedRedeemReturns`: always unless a fee account sends the redeem to
  refund someone else, and then if that account keeps the value. A certificate verifies exactly under
  `CertificatesVerify`. A store request gets no answer, where an error is documented, exactly under
  `AnsweredWhenDecided`. The cache of prices never holds more than the messages not posted (`CacheIsEndOfUnposted`),
  and is exactly those all along if and only if every call is harmless (`ExactAllAlong`): confirming a batch also
  drops the message after it, a delayed message between sequenced ones resets the cache, and a reorganization leaves
  it alone. A global state survives the way to its count and back exactly in normal form (`StateRoundTrip`). What the
  poster posts is the log between its positions exactly if the batch it kept was built from them (`MaybePost`): only
  the count it starts at is compared, and a reorganization of the log leaves it alone (`ReplacedDoesNotFit`,
  `ReplacedIsNotPosted`). Telling the validator that batches are replaced keeps its entries on the chain exactly if it
  is not ahead of the batches that stay (`ReplaceIsSafe`): it rereads the batch, but keeps its place in it
  (`ReplacedBatchIsMissed`). Delayed messages that are added are the ones stored exactly if they continue the stored
  chain (`AddedDelayed`): if the last of them is stored already, the others are not looked at (`OnlyTheLastIsCompared`).

## Model

| member | source | states |
|---|---|---|
| Rlp.DecodeEncodedString | arbnode/batch_poster.go:766-776 | decoding the RLP of a byte string in front of any bytes gives back the string and those bytes |
| Rlp.DecodedStringIsCanonical | arbstate/inbox.go:136-160 | whatever decodes is the canonical encoding of what it decodes to |
| Rlp.DecodeEncodedUint | arbnode/batch_poster.go:810-818 | an encoded 64-bit integer decodes to itself |
| SequencerMessages.ReadSegments | arbstate/inbox.go:136-160 | the loop over decompressed bytes reads exactly the segments that the recursive reading gives, up to the limit and the first bad one |
| SequencerMessages.SegmentsRoundTrip | arbstate/inbox.go:136-160 | segments written one after another are read back as they were |
| SequencerMessages.ParseSerialized | arbnode/sequencer_inbox.go:172-202 | parsing a serialized batch gives its header fields and the segments of its payload |
| SequencerMessages.ParseFails | arbstate/inbox.go:71-170 | exactly what keeps a batch from being parsed: fewer than forty bytes, a newer kind, a failed recovery, blobs without a reader |
| Multiplexer.InboxMultiplexer.PopMessage | arbstate/inbox.go:403-432 | result and whole new state are those of the function Pop: errors, recovered bad segments, advancing within and past the batch |
| Multiplexer.InboxMultiplexer.IsCachedSegmentLast | arbstate/inbox.go:452-472 | true exactly when no segment after the cached one carries a message and no delayed message is left to read |
| Multiplexer.InboxMultiplexer.GetNextMessage | arbstate/inbox.go:476-597 | the loop that skips to the target message with clocks, and the message fetched from the segment it stops at |
| Multiplexer.InboxMultiplexer.AdvanceSequencerMessage | arbstate/inbox.go:434-445 | the state after a batch: next batch, position zero, its delayed count, empty caches |
| MultiplexerProperties.ScanResumes | arbstate/inbox.go:476-518 | scanning to one message and on to a later one is scanning to the later one |
| MultiplexerProperties.PopResumes | arbstate/inbox.go:373-393 | a pop gives the same result and state with and without caches, for any bytes |
| MultiplexerProperties.ResumeEquivalence | arbstate/inbox.go:373-393 | any number of pops agrees with pops that forget all caches before each |
| MultiplexerProperties.BatchIsDecoded | arbstate/inbox.go:403-472 | popping through a batch returns the one-pass decoding of it, message by message, and ends at the next batch |
| MultiplexerProperties.DecodeSteps | arbstate/inbox.go:568-596 | within a batch each message raises the delayed count by at most one |
| MultiplexerProperties.DecodeEnds | arbstate/inbox.go:403-472 | every batch gives a message, ends at the delayed count it declares, and after boundedly many messages |
| MultiplexerProperties.DecodeIsLocal | arbstate/inbox.go:520-597 | decoding a batch depends on no other batch and on no delayed message outside those it reads |
| MultiplexerProperties.MessageByKind | arbstate/inbox.go:519-597 | what each kind of segment stands for, with each clock its own value within its bounds and the nearest bound otherwise |
| MultiplexerProperties.ClockByKind | arbstate/inbox.go:487-514 | which segments move which clock, by how much, and which hold a place or carry a message |
| MultiplexerProperties.PopProgress | arbnode/inbox_tracker.go:670-684 | a successful pop moves to the next batch or lowers a bound on what is left, on any bytes, so the loop ends |
| BatchPoster.BatchSegments.AddSegmentToCompressed | arbnode/batch_poster.go:766-776 | what the compressor has been given stays the encoding of the segments |
| BatchPoster.BatchSegments.RecompressAll | arbnode/batch_poster.go:706-724 | compressing all segments again keeps the batch as it is |
| BatchPoster.BatchSegments.TestForOverflow | arbnode/batch_poster.go:726-753 | overflow exactly beyond the two limits, or when a flush is due and reports the size limit; and which sizes that leaves |
| BatchPoster.BatchSegments.Close | arbnode/batch_poster.go:755-764 | closing drops exactly the trailing clock segments |
| BatchPoster.BatchSegments.AddSegment | arbnode/batch_poster.go:778-801 | success appends the segment; otherwise the batch is closed without it and its headers; while there is room it succeeds |
| BatchPoster.BatchSegments.MaybeAddDiffSegment | arbnode/batch_poster.go:820-834 | a changed clock adds a segment with the wrapped difference |
| BatchPoster.BatchSegments.AddDelayedMessage | arbnode/batch_poster.go:836-843 | a delayed message is one segment and one more delayed message |
| BatchPoster.BatchSegments.AddMessage | arbnode/batch_poster.go:845-864 | the messages accepted are those before plus this one exactly if it says so; the segments are their encoding; it fails for a jump exactly if the delayed count jumps, and succeeds while there is room |
| BatchPoster.BatchSegments.CloseAndGetBytes | arbnode/batch_poster.go:871-890 | the bytes are the compressed encoding of the accepted messages, and there are none exactly if none was accepted |
| BatchPoster.Poster.FillBatch | arbnode/batch_poster.go:1187-1233 | exactly the log messages from the old count to the new one are added, each within the bounds or after an urgent one; it stops at the end of the log, at a message that may not be posted, or full, and says which |
| BatchPoster.Poster.MaybePost | arbnode/batch_poster.go:1040-1300 | what is posted is a batch of as many messages as the position moves, with the next delayed count; they are the log between the two positions if and only if the batch was not kept from before, or was built from this position and this log |
| BatchPoster.KeptFits | arbnode/batch_poster.go:1060 | a batch kept from one log fits another exactly as long as that one has the same messages in its place |
| BatchPoster.ReplacedDoesNotFit | arbnode/batch_poster.go:1060 | a batch that has the second message of a log is kept when that message is replaced, and does not fit |
| BatchPoster.OwnIsPosted | arbnode/batch_poster.go:1295-1299 | a batch of the log's own messages is the batch between the two positions |
| BatchRoundTrip.DecodeEncoded | arbnode/batch_poster.go:803-864 | one-pass decoding of the encoding of sequenced messages gives those messages, delayed ones as they are and others with their clocks moved within the batch's bounds |
| BatchRoundTrip.PostedBatchIsRead | arbnode/batch_poster.go:1295-1299 | popping a posted batch returns exactly its messages, their clocks moved within the batch's bounds, and ends at the poster's next position and delayed count |
| BatchRoundTrip.ReplacedIsNotPosted | arbnode/batch_poster.go:1060-1300 | the bytes posted from that batch are those of the log before, and not those of any batch of the log after |
| Streamer.TransactionStreamer.CountDuplicateMessages | arbnode/transaction_streamer.go:740-815 | how many messages are in the log already, and which need their gas cost written |
| Streamer.TransactionStreamer.AddMessagesImpl | arbnode/transaction_streamer.go:836-961 | log and queue after adding messages are those of the function Add, with every error case |
| Streamer.TransactionStreamer.AddMessages | arbnode/transaction_streamer.go:702-725 | confirmed messages that are all known end the call; otherwise as above |
| Streamer.TransactionStreamer.AddBroadcastMessages | arbnode/transaction_streamer.go:568-665 | queueing and adding of feed messages is the function AddFeed |
| Streamer.TransactionStreamer.Reorg | arbnode/transaction_streamer.go:374-481 | truncates the log, or says why not |
| Streamer.TransactionStreamer.WriteMessageFromSequencer | arbnode/transaction_streamer.go:973-1003 | appends exactly at the end of the log |
| StreamerProperties.DuplicatesCounted | arbnode/transaction_streamer.go:740-815 | the count is the longest run of messages that agree with the log |
| StreamerProperties.DuplicateIff | arbnode/transaction_streamer.go:764-808 | duplicates are the same but for gas costs, of which not both are there and differ |
| StreamerProperties.UnconfirmedOnlyAppends | arbnode/transaction_streamer.go:836-961 | an unconfirmed add leaves the old log a prefix of the new one |
| StreamerProperties.FeedOnlyAppends | arbnode/transaction_streamer.go:568-665 | no feed ever changes a message in the log |
| StreamerProperties.ConfirmedSettlesLog | arbnode/transaction_streamer.go:836-961 | a confirmed add gives the confirmed log, cut only at the first mismatch, extended by the feed messages that follow |
| StreamerProperties.ConfirmedContents | arbnode/transaction_streamer.go:740-815 | the confirmed log, position by position: the prefix, the given messages with their gas costs, the old log up to the first contradiction, and no gas cost lost |
| StreamerProperties.TruncateIff | arbnode/transaction_streamer.go:372-420 | the log is cut exactly to a length that it has, other than zero, if execution follows |
| StreamerProperties.ConfirmedLog | arbnode/transaction_streamer.go:702-725 | after a confirmed add the log has the given messages from the position on, up to gas cost, and keeps what was before |
| StreamerProperties.FeedLandsWhereNamed | arbnode/transaction_streamer.go:568-665 | every message a feed call adds to the log is at the position some feed message named for it |
| StreamerProperties.UnconfirmedLandsWhereNamed | arbnode/transaction_streamer.go:836-961 | what an unconfirmed add appends was given or queued for that position |
| StreamerProperties.ConfirmedLandsWhereNamed | arbnode/transaction_streamer.go:836-961 | past the confirmed messages, the log keeps its messages or gets ones the feed named for that position |
| StreamerRuns.EveryMessageWasNamed | arbnode/transaction_streamer.go:568-1003 | in every run of feed, confirmed, unconfirmed and sequenced messages and reorganizations, every message of the log is at a position the feed named for it or it was given |
| StreamerProperties.AddKeepsSteps | arbnode/transaction_streamer.go:915-926 | delayed counts in the log never jump |
| StreamerProperties.ConfirmedNeverJump | arbnode/transaction_streamer.go:915-926 | confirmed messages that follow on are rejected as a jump exactly if feed messages queued behind them jump |
| StreamerProperties.ConfirmedRefused | arbnode/transaction_streamer.go:836-940 | exactly why confirmed messages are refused: a gap, a jump, a change of the first message, or execution that does not follow |
| FeedProperties.OldFeedIsIgnored | arbnode/transaction_streamer.go:569-666 | a feed call with nothing new changes nothing |
| FeedProperties.BadFeedIsRefused | arbnode/transaction_streamer.go:569-666 | a feed with a message missing or out of place is refused |
| FeedProperties.FeedIsAdded | arbnode/transaction_streamer.go:569-666 | new messages at the end of the log, that take the place of what waits, are added to it exactly if their delayed counts follow on, and then nothing waits |
| FeedProperties.FeedJoins | arbnode/transaction_streamer.go:569-666 | new messages that follow waiting ones without a gap are tried together with them; the result is the rest of them in the log, or all of them waiting |
| FeedProperties.FeedWaits | arbnode/transaction_streamer.go:569-666 | new messages beyond the end of the log wait, behind the ones they follow if there is room, or in their place |
| FeedProperties.FeedContradicts | arbnode/transaction_streamer.go:569-666 | new messages that contradict the log leave it alone and wait for a reorganization |
| FeedProperties.NextFeedIsAdded | arbnode/transaction_streamer.go:569-666 | a feed that goes on from the log, or repeats the end of it, is added to it while nothing waits |
| FeedProperties.ConfirmedMeetsQueue | arbnode/transaction_streamer.go:864-958 | when confirmed messages are written, exactly which waiting messages follow them in the log, and what still waits |
| Tracker.ParsedDelayedCount | arbnode/inbox_tracker.go:670-684 | a batch is parsed with the delayed count it was delivered with |
| TrackerProperties.ReorgBatchesKeepsInv | arbnode/inbox_tracker.go:805-845 | dropping batches keeps the node's invariant |
| TrackerProperties.DelayedReorgIsExact | arbnode/inbox_tracker.go:470-550 | moving the delayed count drops exactly the batches that read more, and cuts the log to the last batch kept |
| TrackerProperties.AddDelayedKeepsInv | arbnode/inbox_tracker.go:385-468 | adding delayed messages keeps the invariant |
| TrackerProperties.ReorgDelayedKeepsInv | arbnode/inbox_tracker.go:787-803 | reorganizing the delayed inbox keeps the invariant |
| TrackerProperties.AddBatchesKeepsInv | arbnode/inbox_tracker.go:598-785 | adding batches keeps the invariant: counts, index, and the last message of each batch |
| TrackerProperties.BatchesNeverJump | arbnode/transaction_streamer.go:915-926 | acceptable batches give messages whose delayed counts step by at most one, so only queued feed messages can be rejected |
| TrackerProperties.ChainAgreement | arbnode/delayed.go:144-155 | equal accumulators at one index mean equal messages, up to gas cost, at all lower indices |
| TrackerProperties.ReachableInv | arbnode/inbox_tracker.go:385-845 | every run of adds and reorganizations keeps the invariant |
| TrackerProperties.RunsFromGenesis | arbnode/inbox_tracker.go:385-845 | so it holds in every run of a new node |
| TrackerContents.AcceptableIff | arbnode/inbox_tracker.go:622-650 | batches are acceptable exactly if each has the next number, follows the accumulator before it, and carries the accumulator of the delayed inbox stored here |
| TrackerContents.AddedBatches | arbnode/inbox_tracker.go:600-760 | after a successful add each batch stands at its number with its accumulator and delayed count, all follow on, and what came before is as it was |
| TrackerContents.AddedLog | arbnode/inbox_tracker.go:652-760 | the log between a batch's message count and the one before is the decoding of its bytes |
| TrackerContents.ReadsWhatWasCommitted | arbnode/inbox_tracker.go:631-646 | every delayed message that an added batch can have read is the parent chain's, up to gas cost |
| TrackerContents.BatchesAreTaken | arbnode/inbox_tracker.go:600-761 | batches are added exactly if there is no gap, they follow on, they parse with delayed counts that do not fall, and the log takes their messages |
| TrackerContents.BatchReorgIsTaken | arbnode/inbox_tracker.go:802-845 | batches are dropped exactly if some are left, there are that many, and execution follows |
| TrackerContents.DelayedInboxIsTaken | arbnode/inbox_tracker.go:464-575 | another delayed inbox is taken exactly if no batch has read past its end, or batches may go but for the first |
| TrackerContents.DelayedIsTaken | arbnode/inbox_tracker.go:385-459 | delayed messages are added exactly if the last is stored already, or there is no gap, each is the next, and the inbox they make is taken |
| TrackerContents.AddedDelayed | arbnode/inbox_tracker.go:397-411 | after a successful add the last message is stored at its place; all of them are exactly if they continue the stored chain |
| TrackerContents.OnlyTheLastIsCompared | arbnode/inbox_tracker.go:397-411 | two messages of which the second is stored already are accepted, whatever the first is |
| InboxTracker.DbInboxTracker.GetDelayedAcc | arbnode/inbox_tracker.go:127-153 | the accumulator, found under the current or the legacy key |
| InboxTracker.DbInboxTracker.GetBatchMetadata | arbnode/inbox_tracker.go:175-200 | the metadata, from the cache or the database, which agree |
| InboxTracker.DbInboxTracker.AddDelayedMessages | arbnode/inbox_tracker.go:385-468 | the database after adding delayed messages is that of the abstract node, or unchanged on an error |
| InboxTracker.DbInboxTracker.SetDelayedCount | arbnode/inbox_tracker.go:470-550 | moving the delayed count, with deletion of later keys, batches and index entries, is the abstract operation |
| InboxTracker.DbInboxTracker.FirstKeyAbove | arbnode/inbox_tracker.go:493-513 | the index key found is the smallest above the count |
| InboxTracker.DbInboxTracker.CheckChain | arbnode/inbox_tracker.go:410-464 | the loop accepts exactly messages that chain on, and writes their entries |
| InboxTracker.DbInboxTracker.CheckBatches | arbnode/inbox_tracker.go:626-651 | the loop accepts exactly consecutive batches that chain on and agree with the delayed inbox |
| InboxTracker.DbInboxTracker.ReadBatches | arbnode/inbox_tracker.go:670-684 | the pop loop ends for any bytes, and for batches that parse gives their decoded messages and counts |
| InboxTracker.DbInboxTracker.MakeMetas | arbnode/inbox_tracker.go:686-719 | metadata and index entries of the batches, refused exactly if a delayed count goes backwards |
| InboxTracker.DbInboxTracker.AddSequencerBatches | arbnode/inbox_tracker.go:598-785 | the database and the log after adding batches are those of the abstract node, or unchanged on an error |
| InboxTracker.DbInboxTracker.ReorgDelayed | arbnode/inbox_tracker.go:787-803 | as the abstract node |
| InboxTracker.DbInboxTracker.ReorgBatches | arbnode/inbox_tracker.go:805-845 | as the abstract node |
| DelayedSequencer.Sequencer.ReadFinalized | arbnode/delayed_sequencer.go:142-170 | what is read is consecutive, final and chained; a reader that stops early stops at a message that is not final, and waits for its block |
| DelayedSequencer.Sequencer.SequenceWithoutLockout | arbnode/delayed_sequencer.go:93-192 | everything forwarded is the bridge's delayed inbox from the start position on, final at the finalized block; without an error or a block to wait for, it is all there is up to the end of the database or the first message that is not final, whose block is waited for next |
| DelayedSequencer.FinalIsSettled | arbnode/delayed_sequencer.go:102-125 | a message is final exactly if its block is final to the parent chain or, without such a call, the distance behind the latest |
| DelayedSequencer.ForwardedIsBridge | arbnode/delayed_sequencer.go:156-188 | chained entries whose last accumulator is the bridge's are the bridge's entries throughout |
| DelayedSequencer.StoredEntriesCover | arbnode/delayed.go:144-155 | the entries a node stores carry the accumulator of their message |
| Balances.TotalPaid | arbos/util/transfer.go:20-70 | no sequence of payments, affordable or not, makes or loses money |
| Balances.Evm.Transfer | arbos/util/transfer.go:20-70 | a transfer succeeds exactly if the sender has the amount, also to itself, and the total stays |
| Balances.TakeFunds | arbos/tx_processor.go:96-107 | takes the smaller of the two amounts out of the pool, in place |
| Retryables.FeesAffordable | arbos/tx_processor.go:227-241 | fee and fee refund go through, whichever accounts coincide, and what they leave |
| Retryables.ReturnAffordable | arbos/tx_processor.go:243-259 | if the call value cannot be paid, returning the fee and forwarding the refund go through |
| Retryables.GasAffordable | arbos/tx_processor.go:305-340 | whoever can pay the cap for all gas can pay gas cost and price refund |
| Retryables.GasSpending | arbos/tx_processor.go:305-329 | infrastructure and network together are paid base fee times gas, once |
| Retryables.SubmissionAffordable | arbos/tx_processor.go:189-383 | on every input every payment of the path taken goes through |
| Retryables.OutcomeOfSubmission | arbos/tx_processor.go:207-305 | each outcome exactly, from the sender's balance, whichever accounts coincide |
| Retryables.FundedSubmission | arbos/tx_processor.go:195-385 | a submission whose deposit covers everything gets its redeem, and every account gains and loses exactly the amounts given |
| Retryables.SubmissionMintsDeposit | arbos/tx_processor.go:198-201 | the total grows by exactly the deposit, on every path |
| Retryables.RefundsComeFromDeposit | arbos/tx_processor.go:189-383 | whichever accounts coincide, the refund address is paid, beyond what it is due as another party, at most the deposit less the call value; with what the redeem may refund, exactly that |
| Retryables.RedeemBooks | arbos/tx_processor.go:305-383 | when a redeem is scheduled, every other account gains exactly its fees, refunds and call value |
| Retryables.TicketBooks | arbos/tx_processor.go:291-303 | the same when the ticket is made and no redeem is scheduled |
| Retryables.FailedSubmissionIsUndone | arbos/tx_processor.go:243-259 | a submission that cannot pay its call value changes no account but by one transfer of the refundable maximal fee |
| Retryables.PriceRefundAsMeant | arbos/tx_processor.go:305-340 | the price refund is what the comment at line 331 means exactly if one of four conditions holds |
| Retryables.PriceRefundNotAsMeant | arbos/tx_processor.go:305-340 | a submission with a deposit of just the gas cost gets its redeem and is refunded a price difference all the same |
| RetryTx.RefundsWithinDeposit | arbos/tx_processor.go:526-571 | the refund address is given at most the maximal refund, and with the sender, who may be the same, exactly the unused gas and, on success, the fee |
| RetryTx.RefundedIsAsMeant | arbos/tx_processor.go:516-570 | how much goes to the refund address and how much to the sender, worked out from the deposit, the fee and the gas used |
| RetryTx.RefundBooks | arbos/tx_processor.go:503-572 | what every account has after the refunds of a redeem, if the fee accounts hold them; outsiders are not touched |
| RetryTx.SuccessfulRedeem | arbos/tx_processor.go:573-577 | a successful redeem moves those refunds and the rest of the escrow to the beneficiary, and nothing else |
| RetryTx.TicketRefundsComeFromDeposit | arbos/tx_processor.go:526-571 | from submission to redeem the payments to the refund address never exceed the deposit less the call value |
| RetryTx.WhoRefunds | arbos/tx_processor.go:547-571 | the network account pays back the fee and its part of the unused gas, the infrastructure account its own part |
| RetryTx.FeeAccountsKeepGasUsed | arbos/tx_processor.go:556-571 | from submission to redeem each fee account keeps exactly its price for the gas used |
| RetryTx.RedeemConserves | arbos/tx_processor.go:494-591 | a whole redeem keeps the total, whatever it executes |
| RetryTx.FailedRedeemIsUndone | arbos/tx_processor.go:573-586 | a failed redeem by anyone but a fee account returns the call value and leaves outsiders as they were |
| RetryTx.FeeAccountReturns | arbos/tx_processor.go:578-586 | when any fee account is the sender, the call value goes back exactly if the account keeps it once the refunds are paid |
| RetryTx.KeptIsHeld | arbos/tx_processor.go:526-571 | what a sending fee account keeps, worked out from what the accounts held before, is what it holds after the refunds |
| RetryTx.NetworkSenderReturns | arbos/tx_processor.go:578-586 | for the network account: exactly if the refund it pays leaves the value, or cannot be paid |
| RetryTx.InfraSenderReturns | arbos/tx_processor.go:578-586 | the exact condition for the infrastructure account, which may be the network account too |
| RetryTx.EnoughToReturn | arbos/tx_processor.go:578-586 | whoever holds the value and the whole gas refund returns the value |
| RetryTx.FailedRedeemReturns | arbos/tx_processor.go:384-591 | in a whole failed redeem the call value goes back exactly if the sender is no fee account, or the refund address, or keeps the value |
| RetryTx.FeeAccountCannotReturn | arbos/tx_processor.go:384-591 | a whole redeem after which the call value cannot go back: the network account sends it and holds nothing else |
| Fees.GasIsSplit | arbos/tx_processor.go:425-477 | gas brought is gas left plus poster gas plus gas held, and what may be used respects the limit per block |
| Fees.PosterIsCovered | arbos/tx_processor.go:404-423 | the poster's fee is its cost, but for less than the price of one gas |
| Fees.OutcomeOfCharge | arbos/tx_processor.go:404-480 | when poster gas is charged, how much, and that a transaction starts exactly if it brings it |
| Fees.EstimateCovers | arbos/tx_processor.go:404-423 | an estimate covers every later charge, unless the price falls below seven eighths or the minimum, or the cost rises by more than a tenth |
| Fees.EstimateIsEnough | arbos/tx_processor.go:404-423 | an estimate is no less than what is charged at once, at or above the minimum price |
| Fees.FeesAddUp | arbos/tx_processor.go:593-626 | poster, infrastructure and network shares sum to base fee times gas used, for every version, poster gas and gas used |
| Fees.WhoIsPaid | arbos/tx_processor.go:594-632 | what the poster, the infrastructure and the network get, for every version and price |
| Fees.PosterIsPaid | arbos/tx_processor.go:425-626 | after charging, whatever execution gives back, the poster is paid in full |
| TxProcessor.TxProcessor.CollectFee | arbos/tx_processor.go:227-241 | fee and refund payments, with what is left refundable |
| TxProcessor.TxProcessor.ReturnFee | arbos/tx_processor.go:243-259 | the fee goes back and what was withheld of it on |
| TxProcessor.TxProcessor.PayGas | arbos/tx_processor.go:305-329 | gas payments out of one shared amount, which ends as the network's share |
| TxProcessor.TxProcessor.SkipRedeem | arbos/tx_processor.go:291-303 | the gas cost refund when there is no redeem |
| TxProcessor.TxProcessor.ScheduleRedeem | arbos/tx_processor.go:305-342 | gas payments, price refund and the maximal refund of the redeem |
| TxProcessor.TxProcessor.Charge | arbos/tx_processor.go:207-383 | outcome and balances are those of the function Submit |
| TxProcessor.TxProcessor.SubmitRetryable | arbos/tx_processor.go:189-383 | outcome and balances of the whole submission, and the total |
| TxProcessor.TxProcessor.StartRetry | arbos/tx_processor.go:384-399 | call value out of escrow and prepaid gas, or an error that changes nothing |
| TxProcessor.TxProcessor.Refund | arbos/tx_processor.go:527-545 | a refund split by the pool, skipping what the fee account cannot pay |
| TxProcessor.TxProcessor.RefundGas | arbos/tx_processor.go:556-571 | the unused gas, out of one shared amount |
| TxProcessor.TxProcessor.EndRetry | arbos/tx_processor.go:494-591 | the balances after a redeem, or that the call value cannot be returned |
| TxProcessor.TxProcessor.GetPosterGas | arbos/tx_processor.go:404-423 | saturating division of the padded cost by the lowered price, or division by zero |
| TxProcessor.TxProcessor.GasChargingHook | arbos/tx_processor.go:425-477 | the outcome of charging, with poster gas, poster fee and held gas |
| TxProcessor.TxProcessor.EndTx | arbos/tx_processor.go:593-631 | who is credited what; the total grows by base fee times gas used; fees available on the parent chain follow the poster's |
| BlockValidator.BlockValidator.CreateNextValidationEntry | staker/block_validator.go:503-569 | the state after creating an entry is that of the step |
| BlockValidator.BlockValidator.PrepareToRecord | staker/block_validator.go:599-611 | which records to send |
| BlockValidator.BlockValidator.ResumeRecording | staker/block_validator.go:619-626 | starting again after a relevant reorg |
| BlockValidator.BlockValidator.SendOneRecord | staker/block_validator.go:627-647 | one turn of the sending loop |
| BlockValidator.BlockValidator.JudgeRuns | staker/block_validator.go:737-758 | not ready, invalid or valid, decided by the first run that is not finished in the right state; invalid exactly if that one has ended |
| BlockValidator.BlockValidator.AdvanceValidations | staker/block_validator.go:709-832 | one turn of the validation loop; an entry to reorganize from is returned exactly if its record failed, it starts in another state, or a run went wrong before any that goes on |
| BlockValidator.BlockValidator.UpdateLatestStaked | staker/block_validator.go:908-965 | a staked state replaces everything before it |
| BlockValidator.BlockValidator.ReorgToBatchCount | staker/block_validator.go:970-976 | the batch is reread exactly if creation is in it or ahead |
| BlockValidator.BlockValidator.ReorgTo | staker/block_validator.go:978-1031 | entries from the count on go, cursors come down, the start state is the chain's |
| ValidationProperties.RunKeeps | staker/block_validator.go:503-1031 | in every run validated <= sent <= created, entries are exactly those in between, and unsent exactly from the cursor on |
| ValidationProperties.LoopFindsEntry | staker/block_validator.go:716-722 | the validation loop never misses an entry |
| ValidationProperties.RecordsAreSent | staker/block_validator.go:619-647 | a record can be sent exactly if no staking update has overtaken it, and then all that follow |
| ValidationProperties.RecordingStarts | staker/block_validator.go:599-611 | recording starts exactly while entries are unsent and not too far ahead, with all of those |
| ValidationProperties.SendingStarts | staker/block_validator.go:619-626 | sending starts after the preparation, unless the entries to be sent were reorganized meanwhile |
| ValidationProperties.SendingStops | staker/block_validator.go:627-647 | nothing is sent past the range |
| ValidationProperties.NextIsRecorded | staker/block_validator.go:594-650 | the next entry is sent and marked, while nothing comes between |
| ValidationProperties.NextIsLaunched | staker/block_validator.go:791-826 | an entry whose record is ready is launched on every root |
| ValidationProperties.NextIsValid | staker/block_validator.go:731-775 | an entry whose runs have all finished in the right state becomes valid |
| ValidationProperties.LoopGoesRound | staker/block_validator.go:709-722 | the loop starts at the first entry not validated and ends behind the last one sent |
| ValidationProperties.BatchIsReread | staker/block_validator.go:970-976 | told of a batch reorganization at or before its batch, the validator reads it again |
| ValidationProperties.FirstRunDecides | staker/block_validator.go:737-758 | the first run that has not finished in the right state decides between invalid and not ready |
| ValidationProperties.TurnOfLoop | staker/block_validator.go:709-832 | exactly the entries that are done become valid, exactly a bad one ends the loop as bad, a prepared one is launched, any other is passed by |
| ValidationProperties.ValidatedStateIsProven | staker/block_validator.go:731-765 | since the valid state was last set from outside, one accepted validation for each message, each starting where the last ended, all runs ended right |
| ValidationProperties.AcceptedWereRun | staker/block_validator.go:731-812 | if validations are sent to at least one module, every one accepted since then has a run and all its runs ended in its end state |
| ValidationProperties.EntriesFollow | staker/block_validator.go:503-569 | if reorgs keep the chain before them, entries follow one another and creation starts where they end |
| ValidationPositions.ReorgIsFaithful | staker/block_validator.go:990-1013 | the state a reorg restarts from is the end of the last entry kept, if the batches and results before it are the same |
| ValidationPositions.NextIsCreated | staker/block_validator.go:503-569 | on the chain the next entry is created exactly if it is not too far ahead, its message is executed and its batch is there |
| ValidationPositions.EntriesAreOnChain | staker/block_validator.go:503-1031 | in every run on a chain that changes in reorgs only after their count, and whose batches are replaced only ahead of the validator, entries are at the chain's positions with its results and follow one another |
| ValidationPositions.ReplaceIsSafe | staker/block_validator.go:970-976 | told that batches are replaced from a number on, the validator's entries stay where the chain has them, whatever batches come, if and only if the next one to create is in the batches before, or at their end |
| ValidationPositions.ReplacedBatchIsMissed | arbnode/inbox_tracker.go:753-761 | batches are replaced by others with the same messages and one more: the validator rereads the batch, but goes on from a position that is no longer that of the message |
| CoordinatorProperties.RunKeeps | arbnode/seq_coordinator.go:245-341 | in every run the count never falls, commits are only added and in the order of their indices |
| CoordinatorProperties.CommittedOnce | arbnode/seq_coordinator.go:245-341 | no index is committed twice, whatever the logs, clocks and locks do |
| CoordinatorProperties.ReadIsCommitted | arbnode/seq_coordinator.go:521-604 | a follower that reads an index gets the message committed there |
| CoordinatorProperties.FreshAgrees | arbnode/seq_coordinator.go:497-520 | sequencers with parts of one log, as long as the count, start in agreement |
| CoordinatorProperties.LogsAgree | arbnode/seq_coordinator.go:497-604 | if logs grow only through the coordinator they are prefixes of one log, which only grows |
| CoordinatorProperties.NoTwoMessages | arbnode/seq_coordinator.go:797-805 | two sequencers never have different messages at an index |
| CoordinatorProperties.OnlyTheChosenCommits | arbnode/seq_coordinator.go:274-288 | in every run a message is committed only while no other sequencer is chosen |
| CoordinatorProperties.WriteGoesThrough | arbnode/seq_coordinator.go:245-341 | a sequencer that nothing comes between, with as many messages as there are, commits its next one |
| CoordinatorProperties.PollIsLimited | arbnode/seq_coordinator.go:497-520 | a poll reads no more than its limit and nothing past the count |
| CoordinatorProperties.ReadGoesThrough | arbnode/seq_coordinator.go:497-604 | a sequencer that polls and finds the next message adds it to its log |
| Positions.TrackedCountsIncrease | arbnode/inbox_tracker.go:598-785 | the counts a tracker has in any run are as the searches need them |
| Positions.FindInboxBatchContainingMessage | arbnode/inbox_tracker.go:233-277 | the search ends and finds the batch of a message; not posted and no batches are exactly the other cases |
| Positions.FindBatchAfterMessageCount | staker/block_challenge_backend.go:74-103 | the search ends; what it finds is the batch of the count exactly if that batch does not start after it; it fails for no count the challenge covers |
| Positions.GlobalStateToMsgCount | staker/block_validator.go:373-418 | the count of a global state, not yet, or not in the chain |
| Positions.FindGlobalStateFromMessageCount | staker/block_challenge_backend.go:105-130 | any result without an error is the global state of the count and leads back to it |
| Positions.CountRoundTrip | staker/block_validator.go:373-418 | count to state and back is the count exactly when all its messages are in batches |
| Positions.StateRoundTrip | staker/block_challenge_backend.go:105-130 | state to count and back is the state exactly when it is in normal form |
| Positions.EndOfBatchIsRenamed | staker/block_challenge_backend.go:105-130 | the end of any batch, named as a position in it, comes back as the start of the next |
| Positions.GlobalStatePositionsAtCount | staker/stateless_block_validator.go:326-341 | positions before and after the last message, and exactly when there are any |
| Positions.FirstPosition | staker/stateless_block_validator.go:330-332 | the fixed answer for one message is right exactly if the first batch has one message |
| Positions.StepAgreesWithSearch | staker/block_validator.go:543-551 | the validator's step from one message to the next gives the position the search gives |
| Bisection.PositionsIncrease | staker/challenge_manager.go:255-281 | positions strictly increase from the start to the end |
| Bisection.SegmentsShrink | staker/challenge_manager.go:284-311 | every segment of a proper bisection is shorter than the whole |
| Bisection.SegmentsHalve | staker/challenge_manager.go:284-311 | every segment of a bisection into as many parts as the contract asks for is at most half as long, rounded up |
| Bisection.ResolvePositions | staker/challenge_manager.go:255-281 | the loop computes those positions, never past the end, and fails exactly if they do not fit |
| Bisection.Bisect | staker/challenge_manager.go:284-311 | the hashes are at exactly those positions |
| Bisection.ScanChallengeState | staker/challenge_manager.go:370-388 | finds the segment that starts right and ends wrong, or says which error it is |
| Bisection.DisputedHasWrongSegment | staker/challenge_manager.go:370-388 | a disputed bisection has exactly one such segment |
| Bisection.HonestMoveIsLegal | staker/challenge_manager.go:284-322 | bisecting that segment with the right hashes is legal |
| Bisection.AnswerIsDisputed | staker/challenge_manager.go:370-388 | any legal answer to right hashes is disputed again, about a segment at most half as long |
| Bisection.HonestPartyAlwaysMoves | staker/challenge_manager.go:511-545 | in every game the honest party has a segment to move on, for at most as many rounds as one less than the challenge's length has binary digits |
| PriceCache.TotalsAreSums | arbnode/transaction_streamer.go:156-180 | the difference of two cumulative totals is the sum in between modulo two to the 64 |
| PriceCache.L1PriceCache.CacheL1PriceDataOfMsg | arbnode/transaction_streamer.go:199-241 | the window after caching a message |
| PriceCache.L1PriceCache.TrimCache | arbnode/transaction_streamer.go:182-197 | the window after trimming |
| PriceCache.L1PriceCache.BacklogCallDataUnits | arbnode/transaction_streamer.go:156-167 | the sum of the units in the window, modulo two to the 64 |
| PriceCache.L1PriceCache.BacklogL1GasCharged | arbnode/transaction_streamer.go:169-180 | the sum of the gas in the window, modulo two to the 64 |
| PriceCache.CacheIsEndOfUnposted | arbnode/transaction_streamer.go:182-241 | in every run without reorganizations the window is the end of the sequenced messages not posted |
| PriceCache.StaysExact | arbnode/transaction_streamer.go:702-706 | an exact window stays exact exactly if the call is harmless |
| PriceCache.ExactAllAlong | arbnode/transaction_streamer.go:182-241 | the window is the sequenced messages not posted all along a run exactly if every call of it is harmless |
| PriceCache.BoundaryIsDropped | arbnode/transaction_streamer.go:702-706 | confirming a batch drops the first message after it |
| PriceCache.GapDropsAll | execution/gethexec/executionengine.go:395-437 | a delayed message between sequenced ones makes the next one drop all before it |
| PriceCache.ReorgIsMissed | arbnode/transaction_streamer.go:374-481 | a message reorganized away stays in the window |
| PriceCache.ZeroIsDropped | arbnode/transaction_streamer.go:214-221 | a message after message zero drops message zero |
| Das.CheckMasks | das/rpc_aggregator.go:91-103 | accepts exactly masks of one bit each, all different |
| Das.CollectResponses | das/aggregator.go:257-306 | the loop's outcome is the first decision that the events make |
| Das.AnsweredWhenDecided | das/aggregator.go:257-308 | the caller gets no answer exactly if too few stored the data and too few failed |
| Das.CancelledIsUnanswered | das/aggregator.go:257-308 | a request cancelled before any service answers gets no answer |
| Das.AlwaysAnswered | das/aggregator.go:131-137 | if nothing is cancelled there is one answer, a certificate exactly if fewer than the honest number failed |
| Das.VerifySignature | arbstate/das_reader.go:250-272 | the loop accepts exactly masks with few enough keys missing that select the signing keys |
| Das.OneHonestSigner | arbstate/das_reader.go:250-262 | any set of honest members as large as assumed has a signer in it |
| Das.CertificatesVerify | das/aggregator.go:257-306 | every certificate verifies exactly if each service's bit is its place, or, if all must sign, the bits are the places in any order |
| Pruner.PrunedTable.DeleteFromLastPrunedUptoEndKey | arbnode/message_pruner.go:138-157 | the table and the cached key after pruning |
| Pruner.PrunedTable.DeleteFromRange | arbnode/transaction_streamer.go:335-370 | exactly the keys of the range go |
| Pruner.MessagePruner.Prune | arbnode/message_pruner.go:91-115 | both tables are pruned to the counts of the last batch to trim, or neither |
| Pruner.PruneKeeps | arbnode/message_pruner.go:138-157 | the first entry and all from one before the end on are kept |
| Pruner.PruneRemoves | arbnode/message_pruner.go:138-157 | nothing else is, and nothing changes |
| Pruner.ActSameBefore | arbnode/inbox_tracker.go:385-845 | every operation of the node that starts at or after the batches pruned leaves the batches, messages and delayed messages before |
| Pruner.EnoughBatchesLeft | arbnode/message_pruner.go:91-103 | after any run of prunes that leave the configured number of batches, and of operations that do not reach into them, that many batches are left and their messages and delayed messages are in the tables |
| Pruner.ReorgLeavesRoom | arbnode/inbox_tracker.go:802-845 | a reorganization of batches leaves that many exactly if it does not reach into them |
| Pruner.NeededIsThere | arbnode/message_pruner.go:91-157 | after any run of prunes and of the tracker's operations at or after them, adding or reorganizing at any batch not pruned finds the message and the delayed message before it and all after |
| PrunedReads.SameApply | arbnode/inbox_tracker.go:385-845 | nodes that differ only before some batch fail or succeed alike at every operation that adds at or after it, and still differ only there |
| PrunedReads.PrunedIsNotRead | arbnode/message_pruner.go:91-157 | after any run, an operation that adds at or after the batches pruned fails or succeeds as with nothing pruned, with the same result from there on, whatever is in the place of what was pruned |

## Left out

- Foreign code: brotli, the zero-heavy encoding, data availability providers and batch fetching are parameters; hashes are free constructors, which makes them injective; BLS signatures are good for exactly the keys that made them.
- Input and output, clocks, configuration, metrics, logging, gas estimation, posting-time policy and retries.
- Positions and counts are unbounded, except where a 64-bit width matters: clocks, delayed counts, cumulative prices, poster gas and challenge positions.
- Database crashes between two writes of one operation, and readers between a write and the refresh of a cache.
- Resequencing of old messages after a reorganization of the log, and reorganizations asked for at start-up.
- Errors of the tracker's operations are one failure; which error it is, is not modelled.
- Streamer.TransactionStreamer.WriteMessageFromSequencer: says nothing about delayed counts, because the source does not check them there.
- The compressor's own errors, and the estimate of compressed sizes beyond its being a parameter.
- ArbOS storage and pricing, ticket lifetimes, keepalive and cancelling of tickets, tips, and the EVM, of which a redeem only says that it keeps the total and is undone on failure.
- Pruner.EnoughBatchesLeft: is about runs whose operations start at or after the batches left, because a reorganization that reaches into them leaves fewer (`ReorgLeavesRoom`).
- PrunedReads.PrunedIsNotRead: is about operations that add at or after the batches pruned, because earlier positions are looked up in the tables, where they are missing.
- ValidationPositions.EntriesAreOnChain: is about runs whose batches are replaced only ahead of the validator, because otherwise it goes on from where the chain no longer is (`ReplacedBatchIsMissed`).
- PriceCache.CacheIsEndOfUnposted: leaves out reorganizations, because the cache keeps messages that they remove.
- The message of a submission carries the gas limit and fee cap of its transaction.
- The validator before the chain has caught up, its legacy state, memory limits and recording itself; a position of zero with no prerecorded blocks, where the source's subtraction wraps.
- Coordinator keys other than the count, the messages and the chosen sequencer; signatures; invalidation by hand; expiry of the count; that two sequencers may both think they are chosen is allowed.
- CoordinatorProperties.LogsAgree: is about logs that grow only through the coordinator, because a log that is ahead of the count from elsewhere can disagree.
- The transition from a block challenge to an execution challenge and the contract's own rules, but for the ones a legal answer obeys.
- Storage and servers of the data availability committee, and its keyset's serialization.
- Keys under which older versions stored delayed messages are not pruned, as in the source.
