# Veilpay verification

A Dafny project that models the parts of the Veilpay repository where correctness depends on more
than one function: state that several handlers share, encodings with a standard behind them, exact
decimal arithmetic, and the Merkle tree of the private pool. Code that works by changing things step
by step is a class or a method with loops, proved against a specification function; what the code
promises is then proved about that function, about every run of a state machine, or both.

| file | what it models |
|---|---|
| `MerkleTree.dfy` | the incremental Merkle tree, against the full zero-padded tree; any hash, any depth |
| `Settlement.dfy` | payment transaction, expiry sweep, pay and cancel requests as interleaved handlers on one database |
| `OnrampOrders.dfy` | fiat order status machine with stale snapshots and two compare-and-swap writes; provider vocabularies |
| `Base32.dfy`, `Crc16.dfy`, `StrKey.dfy` | StrKey validation: base32 with a wrapping 32-bit accumulator, CRC16, single-character errors |
| `Base58.dfy`, `Digits.dfy`, `Alphabet.dfy` | base-58 decoding in place; powers and positional numerals; characters of an alphabet |
| `Amounts.dfy`, `Decimal.dfy`, `Text.dfy` | decimal amounts: equality, two scalers, the Rust parser; texts up to case and white space |
| `Erc20Credits.dfy` | filter, sum and recorded amount of an ERC-20 payment |
| `IndexerSweep.dfy` | the indexer's worker pool, grouping and transfer matching |
| `RedisLock.dfy` | the lease lock over every run, with time and failing Redis calls |
| `LimiterCache.dfy` | LRU cache on Map insertion order, against a timestamped reference |
| `RelayerQuota.dfy` | fixed-window quota and circuit breaker |
| `WebhookDelivery.dfy` | producer call, attempts of one webhook job, recovery sweep over orphaned rows |
| `PoseidonMock.dfy` | the Poseidon stand-in modulo 2^256 |
| `SortDeep.dfy`, `JsonText.dfy` | the canonical form of JSON values; what JSON.stringify prints, and comparing the texts |
| `Wrappers.dfy` | Option and Result |

Databases, Redis, clocks, queues, on-chain checks and hash functions appear as parameters, as choices
of the environment, or as atomic steps. `dafny verify dfyconfig.toml` checks everything.

Where the code does something other than its comments say, the code is modelled and the difference is
stated as a result:

- a cancel request can overwrite a paid invoice (`Settlement.CancelCanOverwritePaid`): a paid invoice
  can still be cancelled exactly when, at that moment, a cancel request that read it as pending has
  yet to write (`Settlement.PaidCanBeCancelledIff`)
- an idempotent answer can name another invoice's payment (`Settlement.IdempotentCanNameAnother`):
  exactly when the key was taken for another invoice at the time of the transaction
  (`Settlement.NamesAnotherIff`, and over runs `Settlement.RunNamesAnotherIff`)
- a refund event does write the crypto amount when it finds the order open, although the comment on
  refunds says never (`OnrampOrders.RefundCanWriteAmount`, `OnrampOrders.RefundKeepsAmountIff`)
- an amount that overflows only after scaling is reported as "must be positive"
  (`Amounts.LargestIsNotPositive`, `Amounts.NotPositiveIff`)
- a row whose queue add failed is not, as commented, retried by the next sweep, unless marking it
  failed also failed (`WebhookDelivery.MarkedRowIsNotRetried`, `WebhookDelivery.RetriedNextTimeIff`)
- a webhook job can use up its attempts without a final status and without a dead letter
  (`WebhookDelivery.ForgottenIff`)
- the Poseidon stand-in is not injective on lists, only on single inputs (`PoseidonMock.CollideIff`,
  `PoseidonMock.TwoInputsCollide`)
- `sortDeep` loses an own `__proto__` key (`SortDeep.ProtoIsLost`, `SortDeep.SortedIff`)
- the lock's release is safe exactly as long as random lock values differ
  (`RedisLock.SameValueIffStolen`, `RedisLock.EqualValuesBreakExclusion`)

## Model

| member | source | states |
|---|---|---|
| `MerkleTree.IncrementalMerkleTree.constructor` | apps/backend/scripts/e2e-smoke-test.ts:192-208 | a new tree is valid and empty: zero ladder, slots, node maps and root all fit zero leaves |
| `MerkleTree.IncrementalMerkleTree.ClimbZeros` | apps/backend/scripts/e2e-smoke-test.ts:197-201 | the ladder loop: entry i is the root of an all-zero tree of depth i |
| `MerkleTree.IncrementalMerkleTree.CopyZeros` | apps/backend/scripts/e2e-smoke-test.ts:203-204 | the slot loop: every slot starts as the zero subtree of its level |
| `MerkleTree.IncrementalMerkleTree.Insert` | apps/backend/scripts/e2e-smoke-test.ts:210-234 | refuses exactly when 2^levels leaves are in; otherwise appends the leaf and keeps all coupled fields right; a refusal changes nothing |
| `MerkleTree.IncrementalMerkleTree.Climb` | apps/backend/scripts/e2e-smoke-test.ts:214-232 | one pass of O(levels) steps rewrites exactly the way from the new leaf up: every level map, every slot and the returned root are those of the tree with the leaf appended |
| `MerkleTree.IncrementalMerkleTree.PlaceLeaf` | apps/backend/scripts/e2e-smoke-test.ts:216-216 | the bottom map gains the leaf, the other levels stay |
| `MerkleTree.IncrementalMerkleTree.ClimbOneLevel` | apps/backend/scripts/e2e-smoke-test.ts:217-231 | one level of the pass: slot, node map and running hash of this level, everything else untouched |
| `MerkleTree.IncrementalMerkleTree.Root` | apps/backend/scripts/e2e-smoke-test.ts:236-238 | the cached root is the root of the full binary tree over the inserted leaves padded with zeros |
| `MerkleTree.IncrementalMerkleTree.Path` | apps/backend/scripts/e2e-smoke-test.ts:240-253 | for any position, at any later time, the returned siblings and side bits fold its leaf to the current root |
| `MerkleTree.NodeIsFullRoot` | apps/backend/scripts/e2e-smoke-test.ts:217-231 | node j of level i is the recursive root over the j-th block of 2^i padded leaves |
| `MerkleTree.RootIsFullRoot` | apps/backend/scripts/e2e-smoke-test.ts:232-232 | the level-by-level root is the recursively computed root of the padded leaves |
| `MerkleTree.LevelExtends` | apps/backend/scripts/e2e-smoke-test.ts:230-230 | appending a leaf changes one entry per level of the sparse node map |
| `MerkleTree.ParentOfCurrent` | apps/backend/scripts/e2e-smoke-test.ts:220-228 | the pair hashed at a level is the pair of children of the rewritten parent, on both branches |
| `MerkleTree.FilledNext` | apps/backend/scripts/e2e-smoke-test.ts:220-227 | the slot of a level is right after the insertion whether or not the insertion wrote it |
| `MerkleTree.AbsentIsZero` | apps/backend/scripts/e2e-smoke-test.ts:248-249 | an absent sibling is always the all-zero subtree of its level |
| `MerkleTree.PathLeadsToRoot` | apps/backend/scripts/e2e-smoke-test.ts:240-253 | siblings and sides of any position fold its leaf to the root, for every hash and depth |
| `MerkleTree.PathBindsLeaf` | apps/backend/scripts/e2e-smoke-test.ts:240-253 | with a pair-injective hash one path leads two leaves to one root only if they are equal |
| `MerkleTree.FullRootBinds` | apps/backend/scripts/e2e-smoke-test.ts:217-232 | with a pair-injective hash two full trees of one depth have the same root exactly when they have the same leaves |
| `MerkleTree.RootBindsLeaves` | apps/backend/scripts/e2e-smoke-test.ts:210-238 | so the roots of two trees of one depth agree exactly when their padded leaves do |
| `Settlement.Database.PayTransaction` | apps/backend/src/services/paymentProcessor.ts:71-102 | insert and pending-to-paid claim happen together or not at all; the four results in the database's order |
| `Settlement.Database.ClaimPending` | apps/backend/src/services/paymentProcessor.ts:89-96 | updateMany with the pending precondition: count and new table |
| `Settlement.Database.ConfirmInvoicePayment` | apps/backend/src/services/paymentProcessor.ts:65-163 | the call run alone is the machine's sequence of turns, including both race branches and the lost enqueue |
| `Settlement.Database.ExpireOne` | apps/backend/src/lib/invoiceExpiry.ts:71-104 | one candidate: claimed only if still pending, announced only by the sweep that claimed it |
| `Settlement.Database.ExpireCandidates` | apps/backend/src/lib/invoiceExpiry.ts:70-110 | the loop over candidates read earlier is the machine's sequence of sweep turns |
| `Settlement.Database.CancelInvoice` | apps/backend/src/controllers/invoiceController.ts:244-306 | the four answers, and the write that does not look at the row again |
| `Settlement.Database.PayInvoice` | apps/backend/src/controllers/invoiceController.ts:308-398 | the four ways to be turned down, in order and without a write, and otherwise the confirmation of the invoice's chain and the request's hash |
| `Settlement.TransactionKeeps` | apps/backend/src/services/paymentProcessor.ts:71-102 | the transaction keeps the database consistent; a created payment claims a pending invoice |
| `Settlement.StatusKeeps` | apps/backend/src/controllers/invoiceController.ts:268-270 | even the unconditional cancel write keeps the surviving invariant; so does the expiry write |
| `Settlement.StepKeepsOk` | apps/backend/src/services/paymentProcessor.ts:65-163 | every step of every handler keeps the invariant and only moves rows forward |
| `Settlement.RunKeepsOk` | apps/backend/src/services/paymentProcessor.ts:65-163 | every reachable state satisfies the invariant |
| `Settlement.PaymentsAndInvoicesAgree` | apps/backend/src/services/paymentProcessor.ts:65-163 | over every interleaving: chain key and hash unique, at most one payment per invoice, on its invoice's chain; paid implies exactly one payment with the invoice's hash, expired and pending imply none |
| `Settlement.EventsAreSound` | apps/backend/src/lib/invoiceExpiry.ts:71-104 | over every interleaving at most one of payment.received and invoice.expired is sent per invoice, at most once, and it agrees with the payment table |
| `Settlement.EventsAreComplete` | apps/backend/src/services/paymentProcessor.ts:104-113 | over every interleaving whose enqueues succeed, whatever the on-chain checks say, once nobody is between commit and event: exactly the invoices with a payment had payment.received and every expired one invoice.expired |
| `Settlement.OutcomesAreSound` | apps/backend/src/services/paymentProcessor.ts:115-159 | over every interleaving: created names the invoice's only payment; idempotent names a payment of this key or of this invoice; not-payable never says paid or pending |
| `Settlement.OnlyStaleExpire` | apps/backend/src/lib/invoiceExpiry.ts:54-56 | over every interleaving an expired invoice is past its deadline |
| `Settlement.OnlyCancelRewrites` | apps/backend/src/controllers/invoiceController.ts:268-270 | the exact step that rewrites a paid or closed invoice: a cancel write, and what it leaves |
| `Settlement.OnlyOwnersCancel` | apps/backend/src/controllers/invoiceController.ts:258-270 | over every interleaving a cancel write concerns an invoice of the merchant who asked |
| `Settlement.PaidUntilCancelWrite` | apps/backend/src/controllers/invoiceController.ts:249-270 | over every run a paid invoice keeps every field except the status, which changes exactly if a cancel write hits it |
| `Settlement.ArmedByReading` | apps/backend/src/controllers/invoiceController.ts:248-266 | the only step after which a cancel write is due is the owner's request reading the invoice as pending |
| `Settlement.PaidCanBeCancelledIff` | apps/backend/src/controllers/invoiceController.ts:248-270 | a paid invoice can still be cancelled by some run exactly when a cancel request that read it as pending has yet to write; otherwise every run leaves it as it is |
| `Settlement.PaidUnlessCancelled` | apps/backend/src/services/paymentProcessor.ts:85-99 | over every interleaving an invoice with a payment is paid, unless a cancel write hit it, and then cancelled |
| `Settlement.CancelCanOverwritePaid` | apps/backend/src/controllers/invoiceController.ts:249-270 | a run from the start that ends with a payment, its event and a cancelled invoice |
| `Settlement.ConfirmAlone` | apps/backend/src/services/paymentProcessor.ts:65-163 | what an undisturbed confirmation achieves and answers in each case: the new row written out field by field; the paid invoice answered with a failure when the event is lost included |
| `Settlement.NewPaymentPays` | apps/backend/src/services/paymentProcessor.ts:71-102 | the only step that records a payment: a confirmation with a new key finds its invoice pending, and leaves it paid, with hash and time, and nothing else changed |
| `Settlement.ConfirmingPaysIff` | apps/backend/src/services/paymentProcessor.ts:71-102 | a confirmation's turn records its payment exactly when the key is new and the invoice pending |
| `Settlement.PayAskedBecomes` | apps/backend/src/controllers/invoiceController.ts:313-376 | a pay request becomes a confirmation, of the invoice's chain and its own hash, exactly when it is the owner's, the invoice is pending and the on-chain check succeeded; each other answer exactly when it is the first to apply; nothing is written |
| `Settlement.PaymentsAreApproved` | apps/backend/src/controllers/invoiceController.ts:333-376 | over every interleaving: behind every payment there is an earlier step in which the owner's request, with the payment's own hash, passed its on-chain check while the invoice was pending, or in which the indexer brought it in |
| `Settlement.IdempotentCanNameAnother` | apps/backend/src/services/paymentProcessor.ts:117-131 | a run from the start that ends with an answer naming another invoice's payment while this one stays pending |
| `Settlement.NamesAnotherIff` | apps/backend/src/services/paymentProcessor.ts:117-146 | run alone, the answer names another invoice's payment exactly when the key was taken for another invoice before the call |
| `Settlement.RunNamesAnotherIff` | apps/backend/src/services/paymentProcessor.ts:65-163 | over every interleaving an idempotent answer names another invoice's payment exactly when the key was taken for another invoice when its transaction ran |
| `Settlement.SweepAlone` | apps/backend/src/lib/invoiceExpiry.ts:70-110 | a sweep expires exactly the candidates still pending, counts them, announces each once and touches nothing else |
| `Settlement.SweepListsDue` | apps/backend/src/lib/invoiceExpiry.ts:54-64 | a sweep asks exactly for the pending invoices past their deadline, each once |
| `Settlement.SweepLeavesNoneDue` | apps/backend/src/lib/invoiceExpiry.ts:54-110 | whatever happens meanwhile, once a sweep has ended no invoice that was due when it asked is pending |
| `OnrampOrders.PollingAgreesWithWebhook` | apps/backend/src/services/onrampOrderStatus.ts:80-108 | the fail-closed polling map never contradicts the webhook map, and exactly when it abstains |
| `OnrampOrders.WebhookStatusIff` | apps/backend/src/services/onrampOrderStatus.ts:80-88 | exactly which statuses mean a refund and which a failure |
| `OnrampOrders.WebhookMeaning` | apps/backend/src/services/onrampOrderStatus.ts:80-88 | on the raw text, exactly which texts mean which status, up to case and outer white space |
| `OnrampOrders.PollingMeaning` | apps/backend/src/services/onrampOrderStatus.ts:98-108 | the same for the polling vocabulary |
| `OnrampOrders.AlikeAreAnsweredAlike` | apps/backend/src/services/onrampOrderStatus.ts:81-81 | texts that differ only in case and outer white space are answered alike by both |
| `OnrampOrders.TerminalIsFrozen` | apps/backend/src/services/onrampOrderStatus.ts:119-187 | over every run a terminal order changes only from completed to refunded and its crypto amount is frozen |
| `OnrampOrders.FieldsAreNeverErased` | apps/backend/src/controllers/onrampController.ts:486-490 | over every run a stored hash or amount may be replaced but is never erased |
| `OnrampOrders.NothingIsMadeUp` | apps/backend/src/services/onrampOrderStatus.ts:147-187 | over every run: a state the order comes to have was asked for, and a hash or amount it comes to carry was carried, by an event of that run |
| `OnrampOrders.RunKeepsOk` | apps/backend/src/services/onrampOrderStatus.ts:119-187 | every reachable state satisfies the machine's invariant |
| `OnrampOrders.AppliedOnce` | apps/backend/src/services/onrampOrderStatus.ts:175-186 | each terminal state is applied by at most one handler, and two different ones only as completed then refunded |
| `OnrampOrders.RefundWins` | apps/backend/src/services/onrampOrderStatus.ts:147-187 | however stale the snapshots, one finished refund handler leaves an initially open order refunded unless somebody failed or cancelled it |
| `OnrampOrders.CompletionWins` | apps/backend/src/services/onrampOrderStatus.ts:147-187 | without refunds and failures one finished completion handler completes the order |
| `OnrampOrders.EndState` | apps/backend/src/services/onrampOrderStatus.ts:147-187 | the terminal state of a complete run as a function of what was asked for |
| `OnrampOrders.OrderDoesNotMatter` | apps/backend/src/services/onrampOrderStatus.ts:147-187 | confluence: complete runs with the same requests end alike |
| `OnrampOrders.TransitionMeaning` | apps/backend/src/services/onrampOrderStatus.ts:147-187 | exactly when a call with any stale snapshot applies, and what it writes |
| `OnrampOrders.RefundKeepsAmountIff` | apps/backend/src/services/onrampOrderStatus.ts:115-117 | exactly when a refund leaves the crypto amount alone |
| `OnrampOrders.RefundCanWriteAmount` | apps/backend/src/services/onrampOrderStatus.ts:165-174 | an open order on which a refund event writes the amount |
| `OnrampOrders.OrderTable.UpdateOpen` | apps/backend/src/services/onrampOrderStatus.ts:165-174 | the update that excludes terminal rows |
| `OnrampOrders.OrderTable.CasCompletedToRefunded` | apps/backend/src/services/onrampOrderStatus.ts:119-131 | the completed-to-refunded update and its result |
| `OnrampOrders.OrderTable.ApplyTransition` | apps/backend/src/services/onrampOrderStatus.ts:147-187 | the call on the table is the specified transition of one row |
| `OnrampOrders.WebhookAlone` | apps/backend/src/controllers/onrampController.ts:486-490 | a webhook event handled alone is the call on the state just read, with its fields or else the stored ones |
| `OnrampOrders.LateEventIsIgnored` | apps/backend/src/services/onrampOrderStatus.ts:155-160 | an event that reads a terminal order is ignored unless it is a refund of a completed one |
| `OnrampOrders.PollAlone` | apps/backend/src/services/onrampOrderStatus.ts:288-314 | a polled order handled alone is the call on the state just read, without fields, or nothing |
| `OnrampOrders.FetchingDecides` | apps/backend/src/services/onrampOrderStatus.ts:301-314 | what a poller writes after its answer, whatever happened to the order meanwhile |
| `OnrampOrders.PolledMeaning` | apps/backend/src/services/onrampOrderStatus.ts:294-312 | which answer asks for which status, MoonPay's own words and the unchanged status included |
| `OnrampOrders.OrderTable.PollOrder` | apps/backend/src/services/onrampOrderStatus.ts:288-316 | one polled order: skipped on error, unknown or unchanged status |
| `OnrampOrders.OrderTable.PollSweep` | apps/backend/src/services/onrampOrderStatus.ts:287-333 | the sweep and its counter |
| `OnrampOrders.PollAllIsSafe` | apps/backend/src/services/onrampOrderStatus.ts:258-334 | a sweep writes no amounts or hashes, re-decides no terminal order, and a count of zero means no change |
| `OnrampOrders.SweepMoves` | apps/backend/src/services/onrampOrderStatus.ts:287-333 | exactly which orders a sweep moves and to what, every other order unchanged, and the number reported |
| `Base32.Decode` | apps/backend/src/utils/publicKey.ts:180-196 | the wrapping 32-bit accumulator loop computes the unbounded bit concatenation, or nothing for a foreign character |
| `Base32.FeedOne` | apps/backend/src/utils/publicKey.ts:188-193 | the loop body is the specified step of the accumulator |
| `Base32.RunIsPack` | apps/backend/src/utils/publicKey.ts:185-194 | bits that fall off the accumulator are never needed: the loop's bytes are those of the whole bit string |
| `Base32.DecodeEncode` | apps/backend/src/utils/publicKey.ts:180-196 | decoding inverts the encoding of section 6 of RFC 4648 for every byte string |
| `Base32.EncodeDecode` | apps/backend/src/utils/publicKey.ts:180-196 | encoding inverts decoding on strings that hold whole bytes |
| `Crc16.Compute` | apps/backend/src/utils/publicKey.ts:199-210 | the bitwise loops compute the register fold |
| `Crc16.CrcIsRemainder` | apps/backend/src/utils/publicKey.ts:199-210 | the CRC is the remainder of the data followed by sixteen zero bits under long division by x^16+x^12+x^5+1 |
| `Crc16.CrcLinear` | apps/backend/src/utils/publicKey.ts:199-210 | the CRC is linear over GF(2) |
| `Crc16.TwoByteBurst` | apps/backend/src/utils/publicKey.ts:199-210 | any change confined to two adjacent bytes changes the CRC |
| `StrKey.Validate` | apps/backend/src/utils/publicKey.ts:134-177 | accepts exactly the encodings of version byte 48, a 32-byte key and its little-endian CRC16; and which rejection is given: shape, version byte, checksum, never a failed decode |
| `StrKey.ShapeDecodes` | apps/backend/src/utils/publicKey.ts:135-157 | a text of the right shape decodes to 35 bytes, and its version byte is right exactly when the second character is A to D |
| `StrKey.ChecksumOrder` | apps/backend/src/utils/publicKey.ts:159-174 | the checksum of a key is stored low byte first |
| `StrKey.AcceptsExactlyKeys` | apps/backend/src/utils/publicKey.ts:134-177 | the accepting condition in both directions, including that the shape check excludes no key |
| `StrKey.StraddlingCharacter` | apps/backend/src/utils/publicKey.ts:159-172 | a change in the low nibble of the last payload byte and the top bit of the checksum's low byte is always caught |
| `StrKey.SingleCharacterError` | apps/backend/src/utils/publicKey.ts:134-177 | changing any one character of an accepted key, to any character, makes it rejected |
| `Base58.MulAdd` | apps/backend/src/utils/publicKey.ts:222-231 | the in-place pass multiplies the number by 58, adds the digit and stays the shortest numeral |
| `Base58.Decode` | apps/backend/src/utils/publicKey.ts:217-235 | as many zero bytes as leading ones, then the minimal big-endian bytes of the base-58 value |
| `Base58.DecodeEncode` | apps/backend/src/utils/publicKey.ts:217-235 | decoding inverts standard base58 encoding for every byte string |
| `Base58.EncodeDecode` | apps/backend/src/utils/publicKey.ts:217-235 | encoding inverts decoding for every valid string |
| `Base58.DecodingIsInjective` | apps/backend/src/utils/publicKey.ts:217-235 | no two valid strings decode alike |
| `Base58.ValidateEd25519Key` | apps/backend/src/utils/publicKey.ts:109-125 | accepts exactly the base58 encodings of 32 bytes; which rejection is given |
| `Amounts.ParseWritten` | apps/backend/src/jobs/chainIndexer.ts:39-42 | the pattern match and the split invert writing a decimal |
| `Amounts.DenotedWhole` | apps/backend/src/jobs/chainIndexer.ts:39-42 | what a written decimal denotes: without a fraction its whole number, with its sign |
| `Amounts.DenotedPush` | apps/backend/src/jobs/chainIndexer.ts:39-42 | and each further digit behind the point adds its value at its place |
| `Amounts.CanonKeeps` | apps/backend/src/jobs/chainIndexer.ts:43-46 | stripping zeros and the sign of zero keeps the rational number |
| `Amounts.CanonUnique` | apps/backend/src/jobs/chainIndexer.ts:43-46 | one canonical decimal per rational number |
| `Amounts.AmountsMatchIff` | apps/backend/src/jobs/chainIndexer.ts:35-54 | amounts match exactly when they denote the same rational number, or are the same word up to case |
| `Amounts.NormalizeKeepsMeaning` | apps/backend/src/jobs/chainIndexer.ts:35-47 | normalizing keeps the meaning and is idempotent |
| `Amounts.FormatUnitsDenotes` | apps/backend/src/services/paymentTxVerifier.ts:423-431 | formatUnitsSafe writes exactly value/10^decimals, in canonical form |
| `Amounts.BaseUnitsDenotes` | apps/backend/src/services/goldrush.ts:85-100 | every integer text, signed or zero-padded, is rendered as a text that denotes it divided by 10^decimals |
| `Amounts.OtherTextsStay` | apps/backend/src/services/goldrush.ts:86-90 | texts that are not integers come back without their outer white space |
| `Amounts.ScalersAgree` | apps/backend/src/services/goldrush.ts:85-100 | both scalers give the same text for every integer and number of decimals |
| `Amounts.RecordedAmountMatches` | apps/backend/src/services/paymentTxVerifier.ts:408-421 | the recorded amount matches a claim exactly when the claim denotes the transferred units over 10^decimals |
| `Amounts.ParseStroopsIff` | packages/spp-native/src/pool_ops.rs:18-59 | accepted are exactly the amounts with at most seven decimals worth between one stroop and 2^128 - 1 |
| `Amounts.ParseOfAmount` | packages/spp-native/src/pool_ops.rs:43-58 | the parser's answer on every readable amount, errors included |
| `Amounts.WhyRefused` | packages/spp-native/src/pool_ops.rs:18-58 | which of the errors is given, for every text, by where its first dot is |
| `Amounts.Utf8OfChar` | packages/spp-native/src/pool_ops.rs:35-39 | the length the decimals are counted by, byte by byte |
| `Amounts.ParsedDenotes` | packages/spp-native/src/pool_ops.rs:43-58 | the parsed stroops over 10^7 are the rational number written |
| `Amounts.StroopsRoundTrip` | packages/spp-native/src/pool_ops.rs:18-59 | parsing the seven-decimal rendering of any 0 < n < 2^128, by either scaler, gives back n |
| `Amounts.NotPositiveIff` | packages/spp-native/src/pool_ops.rs:54-58 | exactly which readable amounts get the message that the amount must be positive |
| `Amounts.LargestIsNotPositive` | packages/spp-native/src/pool_ops.rs:54-58 | the largest 128-bit number of whole coins, which gets that message |
| `Erc20Credits.Credits` | apps/backend/src/services/paymentTxVerifier.ts:328-335 | the filter keeps only credits and loses none of their worth |
| `Erc20Credits.TransferWorth` | apps/backend/src/services/paymentTxVerifier.ts:328-335 | a transfer counts exactly if its token and its recipient, not its sender, are the invoice's, up to case and outer white space, and then with its value |
| `Erc20Credits.OtherLogsAreWorthless` | apps/backend/src/services/paymentTxVerifier.ts:329-334 | another first topic, fewer than three topics, or a third topic that holds no address count nothing |
| `Erc20Credits.TopicInAnyCase` | apps/backend/src/services/paymentTxVerifier.ts:331-331 | the case of the first topic does not matter |
| `Erc20Credits.AddressesEqualIff` | apps/backend/src/services/paymentTxVerifier.ts:101-104 | equal exactly when both are there and equal up to case and outer white space |
| `Erc20Credits.AddressIff` | apps/backend/src/services/paymentTxVerifier.ts:283-290 | what is taken for an address: 0x and forty hexadecimal digits |
| `Text.SymbolsMatchIff` | apps/backend/src/services/paymentTxVerifier.ts:97-99 | token symbols match exactly when equal up to case and outer white space |
| `Text.SpaceIff` | apps/backend/src/jobs/chainIndexer.ts:37-37 | which characters trimming removes in JavaScript and in Rust |
| `Erc20Credits.Sum` | apps/backend/src/services/paymentTxVerifier.ts:390-399 | the loop sums the well-formed credits |
| `Erc20Credits.Verify` | apps/backend/src/services/paymentTxVerifier.ts:307-421 | each refusal exactly when it is the first to apply, from the missing token to too small a sum; otherwise the recorded amount denotes the whole sum |
| `Erc20Credits.TotalIsOrderless` | apps/backend/src/services/paymentTxVerifier.ts:390-399 | the sum does not depend on the order of the logs |
| `Erc20Credits.TotalIsPaidTo` | apps/backend/src/services/paymentTxVerifier.ts:390-399 | the sum over the logs of any transfers is what they paid to the recipient in the token, whoever paid |
| `Erc20Credits.ForeignLogsDoNotCount` | apps/backend/src/services/paymentTxVerifier.ts:328-335 | logs of other tokens, recipients or kinds never count |
| `IndexerSweep.TurnsKeepOk` | apps/backend/src/jobs/chainIndexer.ts:68-87 | however workers interleave, every claimed index is in one worker's hands or done right |
| `IndexerSweep.PoolEnds` | apps/backend/src/jobs/chainIndexer.ts:75-85 | for concurrency at least one all workers have ended exactly after two active turns per item and one per worker, however they interleave |
| `IndexerSweep.PoolMapsAll` | apps/backend/src/jobs/chainIndexer.ts:68-87 | after that many active turns every item has its own result |
| `IndexerSweep.EmptyPoolMapsNothing` | apps/backend/src/jobs/chainIndexer.ts:81-84 | with a smaller concurrency nothing is processed |
| `IndexerSweep.CallsAreBounded` | apps/backend/src/jobs/chainIndexer.ts:81-84 | the number of workers, and that no more calls than that are ever under way |
| `IndexerSweep.GroupByAddress` | apps/backend/src/jobs/chainIndexer.ts:119-128 | each group holds exactly the invoices of its key, in order; invoices without an address are skipped |
| `IndexerSweep.SameGroupIff` | apps/backend/src/jobs/chainIndexer.ts:124-124 | one group exactly for one chain and addresses equal up to case |
| `IndexerSweep.PaysIff` | apps/backend/src/jobs/chainIndexer.ts:143-149 | a transfer pays exactly when recipient and symbol are equal up to case and outer white space and the amounts mean the same |
| `IndexerSweep.ChooseTransfer` | apps/backend/src/jobs/chainIndexer.ts:138-168 | the first transfer with the right recipient, amount and symbol, whose amount means what the invoice's means; none only if none pays |
| `RedisLock.LockCell.Acquire` | apps/backend/src/lib/redisLock.ts:31-36 | SET NX PX: succeeds exactly when no lease is stored or the stored one has expired, and then stores its own with a full time to live |
| `RedisLock.LockCell.Release` | apps/backend/src/lib/redisLock.ts:44-52 | deletes exactly an unexpired lease with its own value |
| `RedisLock.LockCell.WithLock` | apps/backend/src/lib/redisLock.ts:29-56 | what the caller gets and what the cell holds, for each way the SET call can go, any result or exception of the body and anything others did to the cell meanwhile |
| `RedisLock.RunKeepsOk` | apps/backend/src/lib/redisLock.ts:29-56 | the lease invariant in every reachable state, with time passing and Redis calls failing on either side |
| `RedisLock.RunKeepsCell` | apps/backend/src/lib/redisLock.ts:29-56 | in every run, whatever the lock values, a stored lease carries its owner's value and, while the body runs, its deadline |
| `RedisLock.OverlapMeansOverrun` | apps/backend/src/lib/redisLock.ts:29-56 | two bodies overlap only if the earlier one had outlived its lease before the later one acquired |
| `RedisLock.MutualExclusion` | apps/backend/src/lib/redisLock.ts:29-56 | bodies within their time to live never overlap, and the one running owns the lease |
| `RedisLock.NoStolenLease` | apps/backend/src/lib/redisLock.ts:41-55 | with distinct values no release removes another's live lease |
| `RedisLock.TimelyReleaseFrees` | apps/backend/src/lib/redisLock.ts:38-55 | with distinct values a body that ends within its time frees the lock |
| `RedisLock.SameValueIffStolen` | apps/backend/src/lib/redisLock.ts:41-55 | over every run, exactly when a release removes another's live lease: the call arrives and the values are equal |
| `RedisLock.EqualValuesBreakExclusion` | apps/backend/src/lib/redisLock.ts:26-27 | a run with equal values in which two bodies within their time overlap |
| `RedisLock.OverrunAdmitsAnother` | apps/backend/src/lib/redisLock.ts:31-36 | once no lease is live the next caller enters, whoever is still in a body |
| `RedisLock.EntersIff` | apps/backend/src/lib/redisLock.ts:31-36 | exactly when a caller enters, and what its SET leaves in the cell |
| `RedisLock.LeaseEnds` | apps/backend/src/lib/redisLock.ts:31-36 | one time to live after a SET, if no other succeeded since, the next caller enters, whatever the holders did |
| `RedisLock.LeaseLasts` | apps/backend/src/lib/redisLock.ts:31-55 | until then, unless its value is released, nobody enters |
| `LimiterCache.MerchantLimiterCache.Get` | apps/backend/src/middleware/rateLimiter.ts:166-182 | result and new order; an expired entry is dropped |
| `LimiterCache.MerchantLimiterCache.Set` | apps/backend/src/middleware/rateLimiter.ts:184-202 | the key becomes the newest and the oldest go until the bound holds |
| `LimiterCache.MerchantLimiterCache.EvictOldest` | apps/backend/src/middleware/rateLimiter.ts:194-201 | the eviction loop keeps exactly the newest maxSize entries |
| `LimiterCache.MerchantLimiterCache.Delete` | apps/backend/src/middleware/rateLimiter.ts:204-206 | removes the key only |
| `LimiterCache.LookupIff` | apps/backend/src/middleware/rateLimiter.ts:159-170 | what the cache holds for a key is the entry with that key |
| `LimiterCache.DeleteMeaning` | apps/backend/src/middleware/rateLimiter.ts:204-206 | a deleted key is gone, no other key is affected |
| `LimiterCache.GetMeaning` | apps/backend/src/middleware/rateLimiter.ts:166-182 | a hit answers the limiter and keeps the entry with its expiry; an expired entry is dropped; no other key is affected |
| `LimiterCache.SetStores` | apps/backend/src/middleware/rateLimiter.ts:184-192 | the key holds the limiter with a full time to live |
| `LimiterCache.SetSpares` | apps/backend/src/middleware/rateLimiter.ts:184-202 | any other key keeps its entry, or is evicted from a full cache |
| `LimiterCache.OrderIsTouchOrder` | apps/backend/src/middleware/rateLimiter.ts:156-207 | after every run the iteration order is the order of last touches, and the size is within the bound |
| `LimiterCache.EvictsLeastRecent` | apps/backend/src/middleware/rateLimiter.ts:194-201 | what is evicted was touched less recently than everything kept |
| `LimiterCache.TouchMakesNewest` | apps/backend/src/middleware/rateLimiter.ts:178-192 | a set, or a get that hits, makes its key the newest |
| `LimiterCache.Survival` | apps/backend/src/middleware/rateLimiter.ts:156-207 | a key is found while fewer than maxSize distinct others were touched since its own touch and its time has not passed |
| `LimiterCache.SurvivalIff` | apps/backend/src/middleware/rateLimiter.ts:156-207 | without deletions and expiries it is present exactly that long |
| `RelayerQuota.Buckets.MemTake` | apps/backend/src/utils/relayerQuota.ts:29-39 | exactly when a request is granted, and the new table of buckets |
| `RelayerQuota.ServeIsOk` | apps/backend/src/utils/relayerQuota.ts:29-39 | the window invariant over every run with a non-decreasing clock |
| `RelayerQuota.WindowBound` | apps/backend/src/utils/relayerQuota.ts:29-39 | at most max grants per window |
| `RelayerQuota.QuotaBound` | apps/backend/src/utils/relayerQuota.ts:29-39 | at most 2·max grants in any closed interval of one window's length, at most 2·max - 1 in a half-open one |
| `RelayerQuota.RefusedOnlyWhenFull` | apps/backend/src/utils/relayerQuota.ts:36-36 | a request is refused only when at least max grants were made less than a window's length ago |
| `RelayerQuota.QuotaBoundIsTight` | apps/backend/src/utils/relayerQuota.ts:29-39 | the closed bound is reached |
| `RelayerQuota.ZeroMaxStillGrants` | apps/backend/src/utils/relayerQuota.ts:32-35 | with max 0 a window's first request is still granted |
| `RelayerQuota.CircuitBreaker.NoteSuccess` | apps/backend/src/utils/relayerQuota.ts:141-143 | ends the streak of failures and leaves the circuit as it is |
| `RelayerQuota.CircuitBreaker.NoteFailure` | apps/backend/src/utils/relayerQuota.ts:145-151 | counts the failure and opens the circuit at the threshold |
| `RelayerQuota.CircuitBreaker.IsOpen` | apps/backend/src/utils/relayerQuota.ts:153-155 | open before the stored time |
| `RelayerQuota.TripsEveryTwenty` | apps/backend/src/utils/relayerQuota.ts:136-155 | the circuit opens exactly at every twentieth failure of an unbroken streak |
| `RelayerQuota.OpenIffTripped` | apps/backend/src/utils/relayerQuota.ts:136-155 | with a clock that does not go back, the circuit is open exactly while the last five minutes saw a twentieth failure |
| `WebhookDelivery.Job.Handle` | apps/backend/src/jobs/webhookWorker.ts:36-145 | one attempt: row, dead letter, and whether it throws, for every way it can end: lookup and delivery exceptions, missing URL, failing row writes, payloads without a delivery id |
| `WebhookDelivery.Job.Run` | apps/backend/src/jobs/webhookWorker.ts:36-145 | the repeated attempts, and how many are made |
| `WebhookDelivery.ThrowsIff` | apps/backend/src/jobs/webhookWorker.ts:36-145 | an attempt throws unless there is no URL or a success was recorded |
| `WebhookDelivery.MidwayShows` | apps/backend/src/jobs/webhookWorker.ts:68-138 | what the row of a job shows between attempts, when its writes succeed |
| `WebhookDelivery.RunGoesOn` | apps/backend/src/jobs/webhookWorker.ts:87-142 | a job that is not ended goes on from that row |
| `WebhookDelivery.RunFromDecides` | apps/backend/src/jobs/webhookWorker.ts:36-145 | the final row as a function of the first attempt that ends the job, or of the last one |
| `WebhookDelivery.JobOutcome` | apps/backend/src/jobs/webhookWorker.ts:81-142 | exactly when the row ends delivered, exactly when failed, and exactly when there is a dead letter, for any answers, exceptions and failing writes |
| `WebhookDelivery.DeliveredOrDead` | apps/backend/src/jobs/webhookWorker.ts:81-142 | with a URL, no exception and working last writes: delivered iff some attempt succeeded, failed iff all failed, and one dead letter exactly then |
| `WebhookDelivery.FailedWithoutDeadLetter` | apps/backend/src/jobs/webhookWorker.ts:44-62 | a failed row without a dead letter comes exactly from a missing URL that was recorded |
| `WebhookDelivery.ForgottenIff` | apps/backend/src/jobs/webhookWorker.ts:36-145 | exactly when a job ends with neither a final status nor a dead letter |
| `WebhookDelivery.Producer.Enqueue` | apps/backend/src/jobs/webhookQueue.ts:127-257 | the row and job one producer call leaves and what it returns, with or without a delivery id, for a first call or a manual retry, whichever of its calls fail |
| `WebhookDelivery.RetryReportsTruly` | apps/backend/src/jobs/webhookQueue.ts:209-234 | a manual retry reports success only for a job that is there, and marks the row only when none could be added |
| `WebhookDelivery.EnqueueIsProducer` | apps/backend/src/jobs/webhookQueue.ts:328-339 | the sweep's call of the producer on a row has the producer's effect on that row and on the jobs |
| `WebhookDelivery.Sweeper.RecoverRow` | apps/backend/src/jobs/webhookQueue.ts:298-339 | what the sweep does with one row |
| `WebhookDelivery.Sweeper.Recover` | apps/backend/src/jobs/webhookQueue.ts:297-352 | the loop, its counter and the abort |
| `WebhookDelivery.OneDecides` | apps/backend/src/jobs/webhookQueue.ts:312-339 | exactly when a row is left claimed, and when its job is new |
| `WebhookDelivery.RecoverMeaning` | apps/backend/src/jobs/webhookQueue.ts:298-339 | exactly when a turn skips, aborts, recovers or reverts, and that the first two change nothing |
| `WebhookDelivery.SweepSpares` | apps/backend/src/jobs/webhookQueue.ts:284-291 | rows that are not pending, are claimed or are too young are left alone |
| `WebhookDelivery.SweepReaches` | apps/backend/src/jobs/webhookQueue.ts:297-340 | every listed row with a payload gets into the queue when the calls work |
| `WebhookDelivery.AbortReportsNone` | apps/backend/src/jobs/webhookQueue.ts:346-351 | an aborted sweep reports zero |
| `WebhookDelivery.NoStrandedClaim` | apps/backend/src/jobs/webhookQueue.ts:297-352 | no row is left claimed without its job having been added, even after an abort, when reverts succeed |
| `WebhookDelivery.FailedRevertStrands` | apps/backend/src/jobs/webhookQueue.ts:331-338 | a failed revert, and only that, strands a claim whose add failed |
| `WebhookDelivery.RetriedNextTimeIff` | apps/backend/src/jobs/webhookQueue.ts:240-253 | exactly when the next sweep selects the row again |
| `WebhookDelivery.MarkedRowIsNotRetried` | apps/backend/src/jobs/webhookQueue.ts:240-253 | a row whose add failed, whose claim was reverted, and which the next sweep does not select |
| `WebhookDelivery.EventOutcome` | apps/backend/src/jobs/webhookQueue.ts:127-340 | producer and sweep together: after a working sweep an event is lost exactly when nothing of it was written, failed exactly when that was recorded, and any other row has its job |
| `WebhookDelivery.CountIsJobsAdded` | apps/backend/src/jobs/webhookQueue.ts:328-346 | the number reported is the number of jobs added |
| `WebhookDelivery.JobIdIsInjective` | apps/backend/src/jobs/webhookQueue.ts:77-79 | the job id is the delivery id behind wh-, so different deliveries have different job ids |
| `PoseidonMock.Poseidon` | apps/consumer-app/__mocks__/circomlibjs.ts:29-43 | the loop computes the specified hash |
| `PoseidonMock.EmptyHash` | apps/consumer-app/__mocks__/circomlibjs.ts:33-41 | the hash of no inputs, in numbers |
| `PoseidonMock.HashesToZero` | apps/consumer-app/__mocks__/circomlibjs.ts:30-41 | the input that hashes to zero, in numbers |
| `PoseidonMock.AvalancheTwice` | apps/consumer-app/__mocks__/circomlibjs.ts:38-40 | the xor-fold is its own inverse on 256-bit numbers |
| `PoseidonMock.FinishIsInvertible` | apps/consumer-app/__mocks__/circomlibjs.ts:38-41 | fold and odd multiplication together are a bijection with an explicit inverse |
| `PoseidonMock.SingleInputIsBijective` | apps/consumer-app/__mocks__/circomlibjs.ts:13-28 | single-input calls are a bijection of the 256-bit numbers with an explicit inverse |
| `PoseidonMock.SingleInputIsInjective` | apps/consumer-app/__mocks__/circomlibjs.ts:13-28 | single inputs collide exactly when congruent modulo 2^256 |
| `PoseidonMock.CollideIff` | apps/consumer-app/__mocks__/circomlibjs.ts:13-14 | lists of one length collide exactly when their unreduced contributions are congruent |
| `PoseidonMock.TwoInputsCollide` | apps/consumer-app/__mocks__/circomlibjs.ts:13-14 | two-input calls do collide |
| `SortDeep.Sort` | apps/consumer-app/scripts/verify-zkey-provenance.js:491-503 | the recursion with its key-by-key loop computes the specified value |
| `SortDeep.SortObject` | apps/consumer-app/scripts/verify-zkey-provenance.js:495-501 | the loop over sorted keys, with the engine's enumeration order and its prototype key |
| `SortDeep.SortedInKeyOrder` | apps/consumer-app/scripts/verify-zkey-provenance.js:495-501 | the keys of a sorted object: array indices by number, then the others by code units |
| `SortDeep.SetPropOverwrites` | apps/consumer-app/scripts/verify-zkey-provenance.js:498-498 | assigning to a key that is there changes its value only |
| `SortDeep.ArrangeSame` | apps/consumer-app/scripts/verify-zkey-provenance.js:495-501 | the rebuilt object depends on the properties alone, not on their order |
| `SortDeep.SortedIff` | apps/consumer-app/scripts/verify-zkey-provenance.js:490-503 | canonical form: equal results iff equal up to key order at every depth, the prototype key left out of account |
| `SortDeep.SortedIffAlike` | apps/consumer-app/scripts/verify-zkey-provenance.js:490-503 | without that key: equal results iff equal up to key order at every depth |
| `SortDeep.SortedIsAlike` | apps/consumer-app/scripts/verify-zkey-provenance.js:490-503 | sorting changes nothing but key order and the prototype key |
| `SortDeep.SortedTwice` | apps/consumer-app/scripts/verify-zkey-provenance.js:490-503 | sortDeep is idempotent |
| `SortDeep.ProtoIsLost` | apps/consumer-app/scripts/verify-zkey-provenance.js:497-499 | two different values with equal results |
| `JsonText.PrintIsJoined` | apps/consumer-app/scripts/verify-zkey-provenance.js:420-420 | how JSON.stringify prints arrays and objects |
| `JsonText.PrintWords` | apps/consumer-app/scripts/verify-zkey-provenance.js:420-420 | and null and the two truth values |
| `JsonText.EscapeTable` | apps/consumer-app/scripts/verify-zkey-provenance.js:420-420 | and each escape, section 7 of RFC 8259 |
| `JsonText.PrintIsInjective` | apps/consumer-app/scripts/verify-zkey-provenance.js:420-420 | JSON.stringify prints different values differently |
| `JsonText.ComparisonIff` | apps/consumer-app/scripts/verify-zkey-provenance.js:418-420 | the comparison of the printed sorted values holds exactly when the values are equal up to key order at every depth, the prototype key left out of account |

## Left out

- `MerkleTree.IncrementalMerkleTree.Insert`: does not model that JavaScript's `&`, `>>` and `^` work on 32-bit integers; the model is exact for indices below 2^31, so for up to 31 levels. A refused insertion is a result instead of an exception.
- `Settlement.RunKeepsOk`: does not model the retention purge; the only payments it deletes have no invoice and failed, and a confirmation never writes such a row.
- `Settlement.Database.ConfirmInvoicePayment`: does not model amounts, addresses or the webhook payload; the on-chain verification before it is a yes-or-no choice of the environment.
- `OnrampOrders.PollingAgreesWithWebhook`: does not model lower-casing outside ASCII; no other character lower-cases into one of the words compared.
- `OnrampOrders.OrderTable.PollSweep`: does not model the selection and batch limit of stale orders; the candidates are any list read earlier.
- `Amounts.AmountsMatchIff`: does not model lower-casing outside ASCII, nor how a JavaScript number is turned into a string.
- `Amounts.BaseUnitsDenotes`: does not model a number of decimals that is not an integer; texts that are not integers are returned unchanged and are not given a meaning.
- `RedisLock.RunKeepsOk`: does not model the branch without a Redis client, where the body runs unlocked.
- `LimiterCache.MerchantLimiterCache.Set`: does not model a negative or fractional maxSize.
- `WebhookDelivery.JobOutcome`: does not model crashes of the worker; a dead letter is one that was asked for, and whether its queue took it is not modelled.
- `WebhookDelivery.NoStrandedClaim`: does not model a crash between the claim and its revert.
- `SortDeep.SortedIff`: does not model characters outside the Basic Multilingual Plane in keys, which JavaScript orders by surrogates.
- `JsonText.PrintIsInjective`: does not model how a number is printed, which is its text here, nor numbers too large to be finite, which are printed as null, nor lone surrogates in strings.
- `IndexerSweep.SameGroupIff`: does not say what happens to names of chains that contain a colon; no chain has one.
- `IndexerSweep.PoolMapsAll`: does not model a call that throws; the sweep's own callback catches.
- Uniqueness of manual-retry job ids: the worker overwrites the retry count, so they can repeat.
- `Erc20Credits.Verify`: does not model the address checksum, the reading of a log's data as a number, nor the scaling of the invoice amount; they are parameters. Payments in a native token and the number of confirmations are left out.
- secp256k1 keys and viem's unit parsing: library code.
- `FailoverRateLimitStore`, and quotas that fall back from Redis to memory: each counter is then split over two stores.
- The rest of the smoke test, HTTP handlers, authentication, onramp quotes in floating point, user interface, configuration: easy members or no exact claim.
