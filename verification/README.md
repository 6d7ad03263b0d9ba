# Perihelion, verified

This project models the Perihelion bridge and proves what it promises. A user locks
tokens in an escrow on an EVM chain; a solver delivers the wanted asset on Stellar through
the settlement contract; LayerZero messages carry the request one way and a confirmation
or a cancellation back. The models follow the code of the repository, statement by
statement where the code changes state.

The main results:

- **The two chains together** (`Escrow`, `CrossChain`, `CrossChainSafety`,
  `CrossChainCauses`). Over every interleaving of escrow calls, settlement calls by anybody,
  admin changes and a network that loses, repeats and reorders messages: each lock is live,
  refunded in full, or released once; released means its recipient was already paid at least the minimum;
  a refund caused by Stellar excludes a delivery, and was cancelled there at the deadline or
  later; the escrow is solvent, and its timeout and every message that arrives pay.
- **The settlement contract** (`Settlement`, `SettlementSafety`, `SettlementGates`,
  `SettlementEffects`, `FillEquivalence`, `Confluence`). A state machine whose failed calls
  roll back, with one invariant per intent that ties markers, record, deliveries and outgoing
  messages together; when each call succeeds, exactly; what a pause stops and what it spares.
- **Replay guard and value caps** (`Nonces`, `Bitmap`, `ValueCaps`). The pruned bitmap
  refines a plain set; the rolling window bounds what any window or interval registers.
- **Wire formats** (`Messages`, `Strkey`, `Crc16`, `Asset`, `SdkStellar`, `Radix`). The
  codecs are bijections; the contract's table CRC and wrapping 64-bit buffers and the SDK's
  32-bit ones compute the same functions. Strkeys are those of SEP-0023, base32 is that of
  section 6 of RFC 4648, the checksum is CRC-16/XMODEM.
- **The relayer** (`Relaying`, `RelayBudget`, `Reorg`, `RelayWitnesses`, `EvmWatcher`). The
  cursor never skips a message, nothing that landed is sent again, retries end; and exactly when a drained
  message is retried, a restart is safe, a fork is seen, and a rollback reaches it; nothing
  is given up before its budget is spent.
- **The mempool** (`Mempool`) and **the solver** (`Solving`, `SolverLimits`, `Spellings`, `Lru`,
  `Commitments`, `Quote`, `Headroom`, `Units`). Index and map agree, pagination
  (`MempoolStore.ListPending`) loses nothing; a fill is offered, called, retried and given up
  exactly when the code says it should; a served hash is won at most once and, while its
  signature verifies, tried at most four times; an intent is won once exactly if it is served
  under one spelling; commitments never exceed the balance.

The modules with classes, `Contract`, `Mocks`, `Relayer`, `MempoolStore` and `Solver`, hold
the imperative form of the source. Their methods are proved equal to the transition functions
of `Settlement`, `Escrow`, `Relaying`, `Mempool` and `Solving`, and add the order of writes,
the rollback and the loops.
`Prelude`, `Types`, `Arithmetic`, `Radix` and `OrderedSet` are shared vocabulary.

`dafny verify dfyconfig.toml` checks everything.

## Modelling choices

- A contract call runs in an `Env`: clock, ledger sequence, signatures present, and what the
  token, endpoint and host answer. Asset contract addresses are a function of code and
  issuer. Anything the host would abort on is the error `HostTrap`.
- A Stellar address is its strkey text. Integers carry the width the source gives them
  where it matters; reputation averages and token balances are unbounded.
- Run theorems about deadlines ask only that clocks stay a week clear of the end of `u64`.
- In `CrossChain` the peer of the EVM eid is the escrow for the whole run, and nobody but
  the network speaks for it. The native token, while set, and the derivation of classic asset
  addresses stay the same; every other peer, caller and admin setting is unconstrained.
- `MockEscrow.lzReceive` takes the amount to pay; the composed system passes the lock's own
  amount, as `contracts/soroban/settlement/src/messages.rs:84-95` says the escrow does. The
  escrow's grace period is a parameter, where the mock has the constant 300.
- The relayer's destination answers `isDelivered` truthfully when it answers at all, and may
  receive messages by other ways; a failed `deliver` may have landed.
- The dead-letter store is either the in-memory one or the one on file that
  `relayer/src/cli.ts:102-103` wires; the checkpoint is durable. Claims across restarts ask
  for the file, and `RestartSafeIffFiled` says what happens without.
- Strings of the TypeScript sources are sequences of code units; bigints are integers.
- A solver hash is the string it is served under: the caches are keyed by it, while
  `solver/src/solver.ts:558` compares without case, so two spellings of one hash are two
  hashes of one intent (`WonOnceIffOneSpelling`).

## Where the code and its words differ

- `relayer/src/dead-letter.ts:31-32` tells operators that a drained message is retried on the
  next tick. It is, exactly if the cursor has not passed its block, as when another message
  pins it at or below (`DrainedIsRetriedIffAtCursor`); once passed, it is lost
  (`DrainedMessageIsLost`).
- `relayer/src/relayer.ts:398-401` calls its rollback a step back; with a lagging cursor it can
  be a step forward (`RollbackSafeIffBackward`, `RollbackSkipsPinned`).
- `relayer/src/relayer.ts:684-686` says the walk finds the common ancestor of the fork. It
  compares the window with itself, so it reports the fork's depth exactly if the window's
  links broke just there (`DepthIsForkIff`), reaches the fork exactly if all links above it
  are broken (`ReachesForkIff`, `RollbackReachesForkIff`), and from a window of one chain
  reports every fork one deep (`ForkSeenIffRecorded`). `RollbackMissesFork` is a reachable
  two-block fork whose first new block is skipped; the alarm of line 386 stays silent
  (`NoDeepReorgOnOneChain`).
- `mempool/src/store.ts:147` evicts up to the grace period before the deadline, where its
  comment says after (`SweepIsEarly`).
- `contracts/soroban/settlement/src/lib.rs:857-858` lets the cap be reset at any time while
  it is not latched, which can double the window (`UnlatchedResetDoublesWindow`); it does
  exactly when a named window of the hour has something in its bucket
  (`ResetKeepsCapIffHarmless`).
- The one-bucket claim of line 2073 there fails exactly after a reset that names a later window
  while the bucket of time zero was never named (`BreaksAnchorIffStrands`,
  `OneBucketIffNothingStrands`, `EarlyBreachLeavesBucket`).
- `solver/src/solver.ts:26` imports an error class that `executor.ts` does not define; the
  model takes that outcome as its comments describe it, and as not a definite failure.
- `relayer/src/relayer.ts:219` holds a stray merge marker; the model reads past it.

## Model

| member | source | states |
|---|---|---|
| `CrossChainSafety.LocksEndOneWay` | test/mocks.ts:94-183 | over every run of escrow, network and settlement contract, a locked intent is live with no payout, refunded to its user in full once, or released to the locking solver in full once |
| `CrossChainSafety.ReleasedMeansDelivered` | contracts/soroban/settlement/src/lib.rs:1158-1414 | a released lock was delivered first: exactly one transfer, to the request's recipient, in its asset, of at least its minimum |
| `CrossChainSafety.CancelledMeansNeverDelivered` | contracts/soroban/settlement/src/lib.rs:1434-1542 | a lock refunded because Stellar cancelled the intent has no delivery, in any reachable state |
| `CrossChainCauses.RefundedOnlyAfterDeadline` | contracts/soroban/settlement/src/lib.rs:1434-1542 | over every run, a lock refunded because Stellar cancelled it was cancelled there by a `cancel_expired_intent` that succeeded no earlier than the lock's own deadline |
| `CrossChainCauses.OnlyExpirySendsCancel` | contracts/soroban/settlement/src/lib.rs:1434-1542 | no other call sends a cancellation, and this one only from the deadline on |
| `CrossChainCauses.ArrivalEndsLock` | test/mocks.ts:134-163 | whatever message about a live lock reaches the escrow ends it: released if the intent is confirmed, refunded if it was cancelled |
| `CrossChainSafety.EscrowIsSolvent` | test/mocks.ts:66-183 | the escrow's balance is the sum of its live locks plus what reached it other than as a lock |
| `CrossChainSafety.SupplyIsConserved` | test/mocks.ts:66-183 | locks, releases, refunds and stray transfers only move tokens: over every run the token supply stays what it was |
| `CrossChainSafety.TimeoutAlwaysPays` | test/mocks.ts:168-183 | a live lock can be refunded locally exactly from deadline plus grace on; the tokens are always there |
| `CrossChainSafety.NoConfirmationAfterTimeout` | contracts/soroban/settlement/src/lib.rs:1243-1250 | with a grace longer than the dispatch window, no confirmation of a locally refunded lock leaves Stellar afterwards |
| `CrossChainSafety.WindowsMeetIffGraceIsShort` | sdk/src/escrow-client.ts:202-250 | dispatch window and refund window share an instant if and only if the grace is at most the dispatch window |
| `CrossChainSafety.BothPaidIffTimeoutAfterDelivery` | sdk/src/escrow-client.ts:202-250 | over every run whose Stellar clock is not behind the escrow's refunds, a local refund and a delivery of the same intent coexist if and only if the timeout was pulled on a delivered lock still unreleased at its deadline plus grace |
| `CrossChainSafety.StepPaysBoth` | test/mocks.ts:168-183 | one step makes user and recipient both paid exactly if it is such a timeout |
| `CrossChainSafety.NoDeliveryAfterTimeout` | contracts/soroban/settlement/src/lib.rs:1096-1152 | after a local refund, with the clocks in order, no step delivers the intent |
| `CrossChainSafety.OnlyEarlyFillSettles` | contracts/soroban/settlement/src/lib.rs:1096-1152 | only a fill settles, and only with the dispatch window still ahead of the deadline |
| `CrossChainSafety.ActKeepsInv` | contracts/soroban/settlement/src/lib.rs:1061-1542 | every action on either chain or the network keeps the joint invariant of locks, requests, records, markers and books |
| `CrossChainSafety.RunKeepsInv` | test/mocks.ts:94-183 | the joint invariant holds along every run |
| `CrossChainSafety.ConfirmationMeans` | contracts/soroban/settlement/src/messages.rs:112-135 | a confirmation that reaches the escrow belongs to a settled, confirmed record of that escrow and names the locking solver |
| `CrossChainSafety.CancellationMeans` | contracts/soroban/settlement/src/messages.rs:139-146 | a cancellation that reaches the escrow belongs to an intent cancelled on Stellar |
| `CrossChainSafety.LateIsRefused` | contracts/soroban/settlement/src/lib.rs:1096-1152 | past the dispatch window both ways of confirming fail |
| `CrossChain.DecodedCanonical` | relayer/src/evm-watcher.ts:87-121 | what the contract decodes from the relayer's bytes, when it accepts them, are the request's own fields |
| `CrossChain.OnlyInboundRegisters` | contracts/soroban/settlement/src/lib.rs:1873-1892 | only an authorized inbound message creates a record, and under the eid it came from |
| `CrossChain.RelayedRecord` | contracts/soroban/settlement/src/lib.rs:2110-2211 | a relayed request registers its own terms, reserved to the deadline for the locking solver |
| `Escrow.LiveSumFinalize` | test/mocks.ts:134-183 | finalizing a lock takes exactly its amount off what the escrow owes |
| `Escrow.TransferKeepsSupply` | test/mocks.ts:76-84 | a transfer, also to oneself, leaves the sum of all balances alone |
| `Escrow.SupplyUpdate` | test/mocks.ts:71-84 | setting one balance changes the sum of all by the difference |
| `Escrow.LockSum` | test/mocks.ts:110-129 | a new lock adds exactly its amount to what the escrow owes |
| `Escrow.LockExactly` | test/mocks.ts:110-129 | a lock succeeds exactly on a new hash with the balance, records its terms, and moves the amount from user to escrow |
| `Escrow.ReleaseExactly` | test/mocks.ts:134-146 | a release succeeds exactly on a live, covered lock, and the solver has the amount |
| `Escrow.RefundExactly` | test/mocks.ts:151-163 | a refund succeeds exactly on a live, covered lock, and the user has the amount |
| `Escrow.CancelExpiredExactly` | test/mocks.ts:168-183 | the timeout succeeds exactly where a refund would, from deadline plus grace on |
| `Mocks.MockERC20.Transfer` | test/mocks.ts:76-84 | debit then credit, or an error that changes nothing; the supply stays |
| `Mocks.MockERC20.Mint` | test/mocks.ts:71-74 | the holder has that much more, every other holder what it had, and the supply grows by the amount |
| `Mocks.MockEscrow.Lock` | test/mocks.ts:110-129 | pulls the tokens and records the lock once per hash, or fails unchanged |
| `Mocks.MockEscrow.LzReceive` | test/mocks.ts:134-146 | pays the solver once, or fails unchanged |
| `Mocks.MockEscrow.LzReceiveCancel` | test/mocks.ts:151-163 | refunds the locked amount once, or fails unchanged |
| `Mocks.MockEscrow.CancelExpired` | test/mocks.ts:168-183 | refunds only from deadline plus grace on, or fails unchanged |
| `SettlementSafety.ReachableInv` | contracts/soroban/settlement/src/lib.rs:1158-1542 | in every reachable state markers, record, deliveries and outgoing messages of every intent agree |
| `SettlementSafety.RunMovesForward` | contracts/soroban/settlement/src/lib.rs:1607-1624 | status only moves None to Locked to Filled to ConfirmationSent, or to Cancelled from an open state; registered terms never change |
| `SettlementSafety.StatusIsRecorded` | contracts/soroban/settlement/src/lib.rs:1607-1624 | `status` equals the stored record's status, and an intent without record is unknown or a tombstone |
| `SettlementSafety.DeliveredOnceInFull` | contracts/soroban/settlement/src/lib.rs:1158-1414 | at most one transfer per intent, exactly when filled, to the recipient, in the asset, of at least the minimum |
| `SettlementSafety.OneMessagePerIntent` | contracts/soroban/settlement/src/lib.rs:2290-2382 | at most one outgoing message per intent, to its source chain: a confirmation only of a delivery, a cancel only of an undelivered intent |
| `SettlementSafety.ExecuteKept` | contracts/soroban/settlement/src/lib.rs:1061-1542 | every entrypoint keeps the invariant of every intent and only moves it forward |
| `SettlementSafety.FillKept` | contracts/soroban/settlement/src/lib.rs:1334-1414 | a fill keeps the invariant and moves its intent from Locked to ConfirmationSent |
| `SettlementSafety.DeliverKept` | contracts/soroban/settlement/src/lib.rs:1158-1204 | a delivery keeps the invariant and touches no other intent |
| `SettlementSafety.ConfirmKept` | contracts/soroban/settlement/src/lib.rs:1214-1328 | a dispatch keeps the invariant and sends its intent's one confirmation |
| `SettlementSafety.CancelExpiredKept` | contracts/soroban/settlement/src/lib.rs:1434-1542 | a cancellation keeps the invariant and sends its intent's one cancel |
| `SettlementSafety.RegisteredKept` | contracts/soroban/settlement/src/lib.rs:2110-2211 | a registration keeps the invariant and never overwrites a known or finalized intent |
| `SettlementSafety.CancelInboundKept` | contracts/soroban/settlement/src/lib.rs:2213-2288 | an inbound cancel keeps the invariant, before or after its registration |
| `SettlementSafety.ValidFill` | contracts/soroban/settlement/src/lib.rs:1096-1152 | a validated fill is of a locked, unfinalized intent, covers its minimum, and respects a full reservation |
| `FillEquivalence.FillIsDeliverThenConfirm` | contracts/soroban/settlement/src/lib.rs:1334-1414 | `fill_intent` and `deliver_intent` followed by `dispatch_confirmation` give the same error or the same whole state |
| `FillEquivalence.FillEquivalentAlways` | contracts/soroban/settlement/src/lib.rs:1158-1414 | the equivalence holds from every reachable state |
| `Confluence.StatusClosedForm` | contracts/soroban/settlement/src/lib.rs:1873-1892 | after any sequence of inbound messages a status depends only on which messages arrived |
| `Confluence.OrderDoesNotMatter` | contracts/soroban/settlement/src/lib.rs:2110-2288 | every permutation of the messages ends in the same status of every intent |
| `Confluence.CancelWins` | contracts/soroban/settlement/src/lib.rs:2213-2288 | one authorized cancel, before or after the registration, ends in Cancelled |
| `Confluence.CancelledNeverFills` | contracts/soroban/settlement/src/lib.rs:1096-1152 | a cancelled intent is never delivered and refuses every later fill |
| `SettlementEffects.TransferMoves` | contracts/soroban/settlement/src/lib.rs:1183-1187 | a transfer takes its amount from one account and gives it to the other, changing no other balance |
| `SettlementEffects.DeliveryMovesFunds` | contracts/soroban/settlement/src/lib.rs:1158-1204 | a delivery moves exactly the filled amount from solver to recipient |
| `SettlementEffects.FillMovesFunds` | contracts/soroban/settlement/src/lib.rs:1334-1414 | so does a fill |
| `SettlementEffects.ConfirmationPaysStalledOnly` | contracts/soroban/settlement/src/lib.rs:1292-1323 | a dispatch pays its caller exactly when somebody else's fill had stalled |
| `SettlementEffects.CancellationPaysKeeper` | contracts/soroban/settlement/src/lib.rs:1495-1535 | a cancellation pays the keeper reward and moves nothing else |
| `SettlementEffects.ReputationMoves` | contracts/soroban/settlement/src/lib.rs:2321-2349 | one more fill for the solver only, known or new; the latency average becomes nine parts of itself and one of the new latency, and a first latency is taken as it is |
| `SettlementGates.DeliverIff` | contracts/soroban/settlement/src/lib.rs:1158-1204 | `deliver_intent` succeeds exactly for an authorized solver, unpaused, on an open unreserved or own reserved intent, in time, with enough and the balance; it leaves marker, record and transfer and nothing else |
| `SettlementGates.FillIff` | contracts/soroban/settlement/src/lib.rs:1334-1414 | `fill_intent` succeeds exactly if delivering would and the confirmation of this very fill can be sent at the offered fee; its record, markers, transfer and message are told in full |
| `SettlementGates.ConfirmIff` | contracts/soroban/settlement/src/lib.rs:1214-1328 | `dispatch_confirmation` succeeds exactly on a filled, unconfirmed intent inside the window, if message and due reward go out; its message carries hash, filler, amount and ledger |
| `SettlementGates.CancelExpiredIff` | contracts/soroban/settlement/src/lib.rs:1434-1542 | `cancel_expired_intent` succeeds exactly on an open intent whose deadline has come, if message and reward go out; before that it answers DeadlineNotPassed |
| `SettlementGates.RegistersIff` | contracts/soroban/settlement/src/lib.rs:2110-2211 | a FillInstruction registers exactly if authorized, unpaused here and for its chain, not replayed, new, positive, due within a week and admitted by the caps; and then as sent |
| `SettlementGates.RegistrationErrors` | contracts/soroban/settlement/src/lib.rs:2110-2140 | which refusal a registration meets: pause, replay, amount, horizon, maximum, each on exactly its inputs |
| `SettlementGates.FillErrors` | contracts/soroban/settlement/src/lib.rs:1096-1152 | which refusal a fill meets, each on exactly the inputs that pass the gates before it |
| `SettlementGates.ExpiryErrors` | contracts/soroban/settlement/src/lib.rs:1434-1490 | which refusal an expiry meets: finalized, filled, unknown, or too early |
| `SettlementGates.ConfirmErrors` | contracts/soroban/settlement/src/lib.rs:1214-1260 | which refusal a dispatch meets: confirmed, unknown, not filled, or too late |
| `SettlementGates.KnownIsAcknowledged` | contracts/soroban/settlement/src/lib.rs:2110-2140 | what is known already is acknowledged without effect but for its nonce |
| `SettlementGates.CancelInboundIff` | contracts/soroban/settlement/src/lib.rs:2213-2288 | an inbound cancel succeeds exactly if authorized and not replayed, paused or not, and cancels exactly what is unknown or open |
| `SettlementGates.AuthorizedIff` | contracts/soroban/settlement/src/lib.rs:1850-1870 | inbound messages pass exactly with the endpoint's signature and the registered peer of their chain |
| `SettlementGates.ResolvesIff` | contracts/soroban/settlement/src/lib.rs:1895-1945 | an asset identifier resolves exactly to the configured native token, a classic asset's contract, or a listed contract |
| `SettlementGates.DispatchIff` | contracts/soroban/settlement/src/lib.rs:2352-2382 | a packet goes out exactly with a peer, an endpoint, a fee that covers the quote, and the endpoint's consent |
| `SettlementGates.ResetIff` | contracts/soroban/settlement/src/lib.rs:860-896 | a reset needs the admin's signature and the named time, and nothing else |
| `SettlementGates.PausedRefuses` | contracts/soroban/settlement/src/lib.rs:1940-1960 | a paused contract answers an authorized registration with ContractPaused and keeps its state, nonces included |
| `SettlementGates.PausedRunFreezes` | contracts/soroban/settlement/src/lib.rs:1873-1892 | over any stretch of run that stays paused no call registers or settles an intent |
| `SettlementGates.PauseSparesWaysOut` | contracts/soroban/settlement/src/lib.rs:1214-1542 | confirmations, expiries and inbound cancels answer as if there were no pause |
| `SettlementGates.PauseSparesCancelBytes` | contracts/soroban/settlement/src/lib.rs:1873-1892 | so does a cancel that arrives as bytes |
| `SettlementGates.RunRegistersWithinMax` | contracts/soroban/settlement/src/lib.rs:2040-2050 | over any run under one positive per-intent maximum every record registered is at most that |
| `Contract.Perihelion.Invoke` | contracts/soroban/settlement/src/lib.rs:1061-1542 | an invocation leaves exactly the state of its transition if it succeeds and the old state if it fails, with that error |
| `Contract.Perihelion.FillIntent` | contracts/soroban/settlement/src/lib.rs:1334-1414 | settles, delivers and sends the confirmation, all or nothing; otherwise the error of the first check that fails |
| `Contract.Perihelion.DeliverIntent` | contracts/soroban/settlement/src/lib.rs:1158-1204 | settles and delivers without sending; otherwise the error of the first check that fails |
| `Contract.Perihelion.DispatchConfirmation` | contracts/soroban/settlement/src/lib.rs:1214-1328 | sends the confirmation of a filled intent inside the dispatch window and rewards a caller who is not its solver once it has stalled; otherwise the error of the first check that fails |
| `Contract.Perihelion.CancelExpiredIntent` | contracts/soroban/settlement/src/lib.rs:1434-1542 | cancels an unfilled intent past its deadline, sends the cancellation and pays the keeper; otherwise the error of the first check that fails |
| `Contract.Perihelion.ValidateAndStageFill` | contracts/soroban/settlement/src/lib.rs:1096-1152 | the checks in order, with the error of the first that fails |
| `Contract.Perihelion.SettleAndDeliver` | contracts/soroban/settlement/src/lib.rs:1177-1187 | marker, then transfer |
| `Contract.Perihelion.OnFillInstruction` | contracts/soroban/settlement/src/lib.rs:2110-2211 | registration, or a message acknowledged or refused |
| `Contract.Perihelion.OnCancelInbound` | contracts/soroban/settlement/src/lib.rs:2213-2288 | cancel, tombstone or no change |
| `Contract.Perihelion.AuthorizeInbound` | contracts/soroban/settlement/src/lib.rs:1850-1864 | endpoint and peer checks in order |
| `Contract.Perihelion.ApplyInbound` | contracts/soroban/settlement/src/lib.rs:1873-1892 | pause gate before nonce, and none for a cancel |
| `Contract.Perihelion.LzReceive` | contracts/soroban/settlement/src/lib.rs:1823-1832 | authorize, then apply |
| `Contract.Perihelion.LzReceiveBytes` | contracts/soroban/settlement/src/lib.rs:1061-1089 | authorize, decode, resolve, apply |
| `Contract.Perihelion.ResolveDestAssetId` | contracts/soroban/settlement/src/lib.rs:1895-1926 | the token of an identifier, or the error for it |
| `Contract.Perihelion.AcceptNonce` | contracts/soroban/settlement/src/lib.rs:1991-2029 | one bit set, or stale |
| `Contract.Perihelion.PruneNonceWords` | contracts/soroban/settlement/src/lib.rs:978-1031 | the scan loop deletes exactly the complete words from the floor on and raises the floor past them |
| `Contract.Perihelion.EnforceValueCaps` | contracts/soroban/settlement/src/lib.rs:2040-2108 | admit, latch or refuse, with the counters that go with it |
| `Contract.Perihelion.ResetRollingWindowCap` | contracts/soroban/settlement/src/lib.rs:860-896 | unlatches and re-anchors the window, not before its time |
| `Contract.Perihelion.UpdateSolverReputation` | contracts/soroban/settlement/src/lib.rs:2321-2349 | counters saturate, the average is updated |
| `Contract.Perihelion.Dispatch` | contracts/soroban/settlement/src/lib.rs:2351-2382 | peer, endpoint and fee checks, then one packet to the peer |
| `Contract.Perihelion.PayReward` | contracts/soroban/settlement/src/lib.rs:1292-1323 | a reward if one is due and payable |
| `Contract.Perihelion.TransferToken` | contracts/soroban/settlement/src/lib.rs:1183-1187 | a transfer or a trap |
| `Contract.IsEvmWord` | contracts/soroban/settlement/src/lib.rs:1107-1110 | decides the 20-byte left-padded non-zero shape |
| `Settlement.DecodedShape` | contracts/soroban/settlement/src/messages.rs:209-257 | what the decoder accepts has the shape the handlers rely on |
| `Nonces.AcceptedExactlyOnce` | contracts/soroban/settlement/src/lib.rs:1991-2029 | after any run of accepts and prunes a nonce is accepted if and only if it is nonzero and was never offered for that eid |
| `Nonces.RunIsSet` | contracts/soroban/settlement/src/lib.rs:978-1031 | bitmap, floor and pruning together are the set of nonces offered |
| `Nonces.FloorHistory` | contracts/soroban/settlement/src/lib.rs:978-1031 | floors never go back and everything below one was offered |
| `Nonces.AcceptIffNotConsumed` | contracts/soroban/settlement/src/lib.rs:1991-2029 | acceptance is exactly non-consumption of a nonzero nonce |
| `Nonces.AcceptConsumes` | contracts/soroban/settlement/src/lib.rs:1991-2029 | accepting consumes that nonce and no other |
| `Nonces.AcceptKeepsInv` | contracts/soroban/settlement/src/lib.rs:1991-2029 | accepting keeps floors aligned and words above them |
| `Nonces.PruneKeepsConsumed` | contracts/soroban/settlement/src/lib.rs:978-1031 | pruning changes no nonce's state |
| `Nonces.PruneKeepsInv` | contracts/soroban/settlement/src/lib.rs:978-1031 | pruning keeps floors aligned, only raises them, and leaves no word below one |
| `Nonces.PruneStopsAtGap` | contracts/soroban/settlement/src/lib.rs:993-1016 | within its budget pruning stops only at a word with an unconsumed nonce |
| `Nonces.FirstGap` | contracts/soroban/settlement/src/lib.rs:993-1016 | the first incomplete word of the scanned range |
| `Bitmap.SetBitSets` | contracts/soroban/settlement/src/lib.rs:2011-2023 | setting a clear bit adds exactly that position |
| `Bitmap.AllBitsFull` | contracts/soroban/settlement/src/lib.rs:994-1010 | a word with all bits is the all-ones word |
| `Bitmap.AllButFirst` | contracts/soroban/settlement/src/lib.rs:994-1010 | word zero is complete one below all-ones |
| `ValueCaps.WindowNeverExceedsCap` | contracts/soroban/settlement/src/lib.rs:2040-2108 | over any run from a fresh window whose resets are harmless when called, no aligned window admits more than the cap |
| `ValueCaps.AdmitsIff` | contracts/soroban/settlement/src/lib.rs:2040-2108 | admission, breach and both refusals, each exactly, in terms of maximum, latch and what the window of the hour would hold |
| `ValueCaps.RunWithinMax` | contracts/soroban/settlement/src/lib.rs:2043-2048 | along any run under one positive maximum nothing above it is admitted |
| `ValueCaps.RefusedIffTooLarge` | contracts/soroban/settlement/src/lib.rs:2043-2048 | with the window off an amount is refused if and only if it exceeds a positive maximum |
| `ValueCaps.IntervalNeverExceedsTwiceCap` | contracts/soroban/settlement/src/lib.rs:2040-2108 | under the same discipline any interval of one duration admits at most twice the cap |
| `ValueCaps.LatchHolds` | contracts/soroban/settlement/src/lib.rs:2055-2061 | a breaker stays latched along a run if and only if the run holds no reset at or after the named time; without one its whole state stays as it is |
| `ValueCaps.RegistersOnlyAfterReset` | contracts/soroban/settlement/src/lib.rs:2040-2061 | whatever a latched breaker registers again comes after such a reset, and no earlier than the named time |
| `ValueCaps.BreachLatches` | contracts/soroban/settlement/src/lib.rs:2087-2101 | a breach registers nothing and opens again one duration later |
| `ValueCaps.ResetKeepsCapIffHarmless` | contracts/soroban/settlement/src/lib.rs:860-896 | in every disciplined state, nothing that may follow a reset exceeds the cap if and only if the reset is harmless when called: the breaker is latched, the window of the hour has an empty bucket, or no window was ever named |
| `ValueCaps.UnlatchedReset` | contracts/soroban/settlement/src/lib.rs:860-896 | an unlatched reset empties the bucket of the window of the hour, if that was ever named, and forgets none of what it admitted |
| `ValueCaps.AtMostOneBucket` | contracts/soroban/settlement/src/lib.rs:2067-2076 | with a clock at least one duration after time zero at most one bucket ever exists |
| `ValueCaps.BreaksAnchorIffStrands` | contracts/soroban/settlement/src/lib.rs:2066-2076 | one step leaves a bucket other than the latest window's if and only if it is an accepted reset that names a later window while the bucket of time zero was never named |
| `ValueCaps.HowManyBuckets` | contracts/soroban/settlement/src/lib.rs:2067-2076 | at every point of every run with a forward clock the number of buckets is exact: one if some step stranded, plus one if the latest window has its own |
| `ValueCaps.OneBucketIffNothingStrands` | contracts/soroban/settlement/src/lib.rs:2067-2076 | at most one bucket exists along a whole run, its next registration included, if and only if no step of it strands |
| `ValueCaps.UnlatchedResetDoublesWindow` | contracts/soroban/settlement/src/lib.rs:860-896 | a concrete run in which a harmful reset lets one window admit its cap twice |
| `ValueCaps.EarlyBreachLeavesBucket` | contracts/soroban/settlement/src/lib.rs:2067-2076 | a concrete run whose reset strands the bucket of time zero and leaves two |
| `ValueCaps.EarlyBucketGoes` | contracts/soroban/settlement/src/lib.rs:2067-2076 | a bucket of time zero without a breach is dropped on entering the next window |
| `ValueCaps.WindowStart` | contracts/soroban/settlement/src/lib.rs:2063-2065 | the aligned window that contains the time |
| `ValueCaps.RegisterKeepsInv` | contracts/soroban/settlement/src/lib.rs:2040-2108 | a registration keeps the log and the bucket in step |
| `ValueCaps.ResetKeepsInv` | contracts/soroban/settlement/src/lib.rs:860-896 | a harmless reset keeps log and bucket in step |
| `Messages.FillRoundTrip` | contracts/soroban/settlement/src/messages.rs:282-366 | decoding an encoded FillInstruction gives the same fields |
| `Messages.FillReencodes` | contracts/soroban/settlement/src/messages.rs:282-366 | re-encoding an accepted payload gives its 227 bytes back |
| `Messages.CancelRoundTrip` | contracts/soroban/settlement/src/messages.rs:139-146 | decoding an encoded CancelIntent gives the same fields |
| `Messages.CancelReencodes` | contracts/soroban/settlement/src/messages.rs:474-504 | re-encoding an accepted cancel gives its 35 bytes back |
| `Messages.DecodeInjective` | contracts/soroban/settlement/src/messages.rs:209-257 | no two accepted payloads decode alike |
| `Messages.FillConfirmedInjective` | contracts/soroban/settlement/src/messages.rs:112-135 | a confirmation determines all its fields |
| `Messages.FillConfirmedFields` | contracts/soroban/settlement/src/messages.rs:112-135 | where its fields are and what they spell |
| `Messages.CanonicalFillDecodes` | relayer/src/evm-watcher.ts:87-121 | the relayer's bytes decode to its request if and only if both strings are canonical and the amount is below 2^127 |
| `Messages.CanonicalFillInstruction` | relayer/src/evm-watcher.ts:87-121 | the buffer writes produce the 227-byte layout, or refuse what does not fit |
| `Messages.DecodeMessageBytes` | contracts/soroban/settlement/src/messages.rs:209-257 | dispatches on version and type; a wrong version is malformed, another type unknown, and the field decoders decide the rest |
| `Messages.DecodeFillInstruction` | contracts/soroban/settlement/src/messages.rs:282-366 | accepts 227 bytes with a valid recipient strkey, a canonical asset and a non-negative amount, and returns every field; anything else is malformed |
| `Messages.DecodeCancelIntent` | contracts/soroban/settlement/src/messages.rs:474-504 | accepts 35 bytes with a known reason and returns hash and reason; anything else is malformed |
| `Messages.DecodeStrkeyAddress` | contracts/soroban/settlement/src/messages.rs:379-391 | trim and strict strkey check |
| `Messages.ReadField` | contracts/soroban/settlement/src/messages.rs:149-161 | the slice, or an error past the end |
| `Messages.TrimmedLen` | contracts/soroban/settlement/src/messages.rs:394-400 | one past the last nonzero byte |
| `Messages.TrimOfPad` | contracts/soroban/settlement/src/messages.rs:394-400 | trimming undoes right-padding of a string that does not end in zero |
| `Messages.ZeroSolver` | relayer/src/evm-watcher.ts:118-119 | the solver word is zero exactly for the zero address |
| `Strkey.DecodeOfEncode` | contracts/soroban/settlement/src/strkey.rs:138-170 | decoding an encoded key gives version and payload back |
| `Strkey.EncodeOfDecode` | contracts/soroban/settlement/src/strkey.rs:88-115 | every accepted string is the encoding of what it decodes to |
| `Strkey.ValidIffStrkey` | contracts/soroban/settlement/src/strkey.rs:130-170 | a string is valid if and only if it is the strkey of some account or contract key |
| `Strkey.Base32EncodeLoop` | contracts/soroban/settlement/src/strkey.rs:98-115 | the wrapping 64-bit buffer emits exactly the base32 of the 35 bytes |
| `Strkey.ContractStrkeyLoop` | contracts/soroban/settlement/src/strkey.rs:88-115 | the loop computes the strkey |
| `Strkey.Base32DecodeLoop` | contracts/soroban/settlement/src/strkey.rs:148-163 | the wrapping buffer yields exactly the bytes, or refuses a foreign character |
| `Strkey.DecodeStrkeyLoop` | contracts/soroban/settlement/src/strkey.rs:138-170 | the wrapping 64-bit loop accepts exactly what the arithmetic decoder accepts and returns the same version and payload |
| `Strkey.VersionCharacter` | contracts/soroban/settlement/src/strkey.rs:138-147 | an account key starts with G, a contract key with C |
| `Crc16.TableEntry` | contracts/soroban/settlement/src/strkey.rs:50-73 | each of the 256 table entries is eight clocks of its index |
| `Crc16.TableStep` | contracts/soroban/settlement/src/strkey.rs:75-81 | a table step absorbs a byte as eight bit steps do |
| `Crc16.TableCrc` | contracts/soroban/settlement/src/strkey.rs:75-81 | the table loop computes the bitwise CRC |
| `Crc16.Checksum` | contracts/soroban/settlement/src/strkey.rs:75-81 | low byte first |
| `Crc16.SdkAbsorb` | sdk/src/stellar.ts:20-29 | the SDK's inner loop keeps the low half right whatever piles up above it |
| `Crc16.SdkCrc16` | sdk/src/stellar.ts:20-29 | the SDK's CRC equals the contract's on every byte string |
| `SdkStellar.Base32Decode` | sdk/src/stellar.ts:32-51 | signed 32-bit shifts yield the same bytes |
| `SdkStellar.IsValidStrkeyText` | sdk/src/stellar.ts:58-66 | on 56 characters: alphabet, version and checksum |
| `SdkStellar.IsStellarAddress` | sdk/src/stellar.ts:74-80 | accepts exactly the contract's valid strkeys |
| `SdkStellar.SdkDecodeStrkey` | sdk/src/stellar.ts:88-104 | decodes exactly as the contract does |
| `SdkStellar.IsStellarAsset` | sdk/src/stellar.ts:120-133 | accepts exactly what the contract's `parse` accepts |
| `Asset.ParseText` | contracts/soroban/settlement/src/asset.rs:48-67 | the parser computes the three canonical forms |
| `Asset.ClassicIsCanonical` | contracts/soroban/settlement/src/asset.rs:48-67 | an accepted classic identifier is code, colon and the issuer's own strkey |
| `Asset.ClassicRoundTrip` | contracts/soroban/settlement/src/asset.rs:48-67 | every code and issuer has an identifier that parses to it |
| `Asset.ParsesIff` | contracts/soroban/settlement/src/asset.rs:48-67 | an identifier parses as native, as a classic asset or as a contract exactly if it is that word, that code, colon and issuer strkey, or that contract's strkey |
| `Asset.NoNul` | contracts/soroban/settlement/src/asset.rs:48-67 | an accepted identifier fits the wire field and has no NUL |
| `Relaying.CursorNeverSkips` | relayer/src/relayer.ts:413-477 | over any run of non-rollback ticks, operator actions and, with the dead letters on file, restarts, every message below the cursor landed, is dead-lettered or was taken out; memory and disk never move back |
| `Relaying.TickKeepsSafe` | relayer/src/relayer.ts:377-477 | one such tick keeps this |
| `Relaying.NeverSubmittedAgain` | relayer/src/relayer.ts:483-579 | once a message has landed no later part of any run submits it |
| `Relaying.TickSubmits` | relayer/src/relayer.ts:435-440 | everything a tick submits was observed, confirmed, and neither landed nor dead-lettered |
| `Relaying.SubmitsOnlyIfMissing` | relayer/src/relayer.ts:483-514 | a turn submits at most its own message, and not if it landed, was given up or is backing off |
| `Relaying.ResolvedMeansHandled` | relayer/src/relayer.ts:483-579 | a resolved result means landed or dead-lettered |
| `Relaying.RetriesEnd` | relayer/src/relayer.ts:532-579 | after as many calm ticks as the retry budget the cursor has passed the confirmed head, whatever `deliver` does short of a fatal error |
| `Relaying.EveryTickCounts` | relayer/src/relayer.ts:532-579 | every calm tick spends one attempt of every message still held |
| `Relaying.OneAttempt` | relayer/src/relayer.ts:532-579 | an attempt raises its message's count and settles it on the last of its budget |
| `RelayBudget.FailureIsExact` | relayer/src/relayer.ts:532-579 | a failed attempt short of the budget is counted, unresolved, out of the dead letters and deferred until its wait is over, which doubles each time; on the last it is a dead letter |
| `RelayBudget.GivesUpOnlySpent` | relayer/src/relayer.ts:543-560 | only a failed attempt on the last of the budget makes a dead letter |
| `RelayBudget.DeadLettersAreSpent` | relayer/src/relayer.ts:532-579 | in every run from the start, rollbacks and restarts included, every dead letter in memory or on file has spent the whole budget |
| `RelayBudget.UnresolvedHoldsCursor` | relayer/src/relayer.ts:442-474 | a message whose last result is unresolved holds the cursor at or below its block |
| `RelayBudget.OnlyConfirmedIsSent` | relayer/src/relayer.ts:413-440 | nothing is sent before it has its confirmations, but for block zero of a chain still shorter than that |
| `RelayBudget.UnobservedStartsAfresh` | relayer/src/relayer.ts:421-433 | exactly the retry budgets of observed messages survive a poll |
| `RelayBudget.TurnIsCounted` | relayer/src/relayer.ts:483-579 | every turn that makes an attempt is counted once, under what became of it |
| `RelayBudget.RestartForgets` | relayer/src/relayer.ts:321-324 | a new process starts from its checkpoint with whole budgets and what is on file |
| `Relaying.RollbackSafeIffBackward` | relayer/src/relayer.ts:382-406 | a rollback keeps the cursor safe exactly if it does not move it forward |
| `Relaying.BackwardKeepsCovered` | relayer/src/relayer.ts:398-402 | and then it does so whatever the source holds |
| `Relaying.DrainedIsNeverRetried` | relayer/src/dead-letter.ts:16-37 | a drained message the cursor has passed is never submitted again, in any run without rollback |
| `Relaying.DrainedIsRetriedIffAtCursor` | relayer/src/dead-letter.ts:16-37 | the runbook's promise, exactly: a calm tick submits a just drained, confirmed, missing message if and only if the cursor has not passed its block |
| `RelayWitnesses.DrainedMessageIsLost` | relayer/src/dead-letter.ts:31-32 | a reachable state in which a drained message is behind the cursor, in no queue, and never sent again |
| `Relaying.RestartSafeIffFiled` | relayer/src/dead-letter.ts:69-107 | a restart keeps every message below the cursor accounted for if and only if the dead letters are on file or none was needed |
| `RelayWitnesses.RestartLosesDeadLetters` | relayer/src/dead-letter.ts:104-106 | a reachable state in which a restart over the in-memory store forgets the only trace of a message |
| `Relaying.CursorMovesOn` | relayer/src/relayer.ts:442-474 | whatever the stores, runs without rollback never move the cursor back |
| `RelayWitnesses.RollbackSkipsPinned` | relayer/src/relayer.ts:382-406 | two reachable ticks: a pinned message, then a one-block reorg whose rollback jumps over it |
| `RelayWitnesses.RollbackMissesFork` | relayer/src/relayer.ts:673-699 | three reachable ticks: a fork two blocks deep, within two confirmations, is reported one deep, and the rollback moves the cursor past the first new block and a message in it |
| `RelayWitnesses.ForkGoesUnseen` | relayer/src/relayer.ts:678-680 | two reachable polls: the head jumps over a height, and the fork that replaced the recorded block is not seen |
| `Relaying.RollbackReachesForkIff` | relayer/src/relayer.ts:398-402 | a rollback puts the cursor at or below the first block a fork replaced if and only if every window link above that block is broken |
| `Relaying.DeepReorgIff` | relayer/src/relayer.ts:382-391 | the deep-reorg alarm sounds if and only if as many links in a row as there are confirmations are broken and no local rollback applies |
| `Relaying.RollsBackUnlessDeep` | relayer/src/relayer.ts:382-406 | a reorg that is seen is answered by a rollback exactly if it does not count as too deep, and otherwise only logged |
| `Relaying.NoDeepReorgOnOneChain` | relayer/src/relayer.ts:382-391 | with a confirmation to wait for and a window recorded from one chain the alarm never sounds, whatever the fork |
| `Reorg.SeenIffParentDiffers` | relayer/src/relayer.ts:673-682 | a reorg is seen exactly if the recorded block below the head is not the new head's parent |
| `Reorg.DepthCountsBrokenLinks` | relayer/src/relayer.ts:684-699 | the reported depth is one more than the run of broken links of the window below the head, and nothing else |
| `Reorg.DepthIsForkIff` | relayer/src/relayer.ts:684-699 | for a fork that replaced the last k recorded blocks the walk reports k if and only if the window links above the first of them are broken and the one below is not |
| `Reorg.ReachesForkIff` | relayer/src/relayer.ts:684-699 | it reports at least k if and only if the links above the first replaced block are broken |
| `Reorg.ForkSeenIffRecorded` | relayer/src/relayer.ts:673-699 | with a window recorded from the old chain a fork is seen if and only if the height below the new head was recorded, and its depth is right if and only if, besides, it is one |
| `Reorg.ForkReplaces` | relayer/src/relayer.ts:684-699 | a fork of two chains replaces all its heights in a window that recorded them |
| `Reorg.RecordStaysOnChain` | relayer/src/relayer.ts:707-734 | recording headers of one chain leaves a window of that chain |
| `Reorg.OnChainIsLinked` | relayer/src/relayer.ts:707-734 | every link of such a window fits |
| `Reorg.LinkedSeesDepthOne` | relayer/src/relayer.ts:684-699 | on a window whose own links fit, a reorg is reported one deep, or not at all if the height below the head is missing or fits |
| `Reorg.RecordShowsLatest` | relayer/src/relayer.ts:721-734 | recording keeps one entry a height, stays within the bound, and shows the latest view of that height |
| `Relayer.Relayer.Tick` | relayer/src/relayer.ts:377-477 | the object after a tick is the transition of its old state: poll, reorg detection over the block window, prune, deliver, correlate, advance |
| `Relayer.Relayer.RelayEach` | relayer/src/relayer.ts:435-440 | the loop over a poll ends in the fold of the messages' turns, or where the first fatal error struck |
| `Relayer.Relayer.FindReorg` | relayer/src/relayer.ts:673-699 | the backward walk over the window reports the specified depth |
| `Relayer.Relayer.RecordBlock` | relayer/src/relayer.ts:721-734 | splice, push and shift leave the window with the new block last |
| `Relayer.Relayer.RecordHeaders` | relayer/src/relayer.ts:707-719 | all headers of a poll are recorded in order, the head last |
| `Relayer.Relayer.Restart` | relayer/src/cli.ts:102-112 | a new process keeps what is on file: checkpoint and, with a file, dead letters |
| `Relayer.Relayer.RelayOne` | relayer/src/relayer.ts:483-579 | one message is skipped, backed off, found delivered, submitted or dead-lettered as the transition says, in the same state |
| `Relayer.Relayer.RecordFailure` | relayer/src/relayer.ts:532-579 | the catch block |
| `Relayer.Relayer.Resume` | relayer/src/relayer.ts:321-324 | the cursor of the checkpoint, or the start block |
| `Relayer.Relayer.ForgetUnobserved` | relayer/src/relayer.ts:421-433 | retry state of unobserved messages is dropped, and no other |
| `Relayer.Relayer.MoveCursor` | relayer/src/relayer.ts:442-474 | cursor, then checkpoint, then the dead letters to their file if the store has one |
| `Relayer.IndexResults` | relayer/src/relayer.ts:449-454 | later results replace earlier ones of the same key |
| `Relayer.FindLowest` | relayer/src/relayer.ts:456-466 | the lowest block still pinned |
| `Relayer.DeadLetterStore.Add` | relayer/src/dead-letter.ts:71-84 | records an entry under its key, in memory |
| `Relayer.DeadLetterStore.Drain` | relayer/src/dead-letter.ts:90-94 | returns and clears everything in memory; the file stays |
| `Relayer.DeadLetterStore.Discard` | relayer/src/dead-letter.ts:96-98 | removes one entry from memory |
| `Relayer.DeadLetterStore.Persist` | relayer/src/file-dead-letter-store.ts:97-99 | the file holds the queue; without a file nothing happens |
| `Relayer.DeadLetterStore.Load` | relayer/src/file-dead-letter-store.ts:56-62 | the queue of a new process is the file's, or empty |
| `EvmWatcher.EVMSourceWatcher.Poll` | relayer/src/evm-watcher.ts:269-352 | a scan that returns has every event of the range in order, whatever ranges the provider refused; it returns if single blocks are answered |
| `EvmWatcher.PollServesRelayer` | relayer/src/evm-watcher.ts:269-352 | such a scan is complete and sound for the relayer's cursor |
| `Mempool.IndexAlwaysAgrees` | mempool/src/store.ts:46-163 | after any run the status index partitions the stored hashes by status and the size is bounded |
| `Mempool.BoundIffRoomForOne` | mempool/src/store.ts:70-80 | `maxSize` bounds the store if and only if it is at least one |
| `Mempool.EvictsOldestTerminalFirst` | mempool/src/store.ts:93-102 | eviction removes the oldest terminal record, else the oldest |
| `Mempool.TerminalSticks` | mempool/src/store.ts:122-131 | a terminal record keeps its status until stored anew |
| `Mempool.UpdateKeepsInv` | mempool/src/store.ts:122-131 | a status change succeeds exactly on a stored non-terminal record and moves its hash between indexes |
| `Mempool.UpdatesIff` | mempool/src/store.ts:122-131 | a status changes exactly on a stored record that is pending or filled, in place |
| `Mempool.PutKeepsInv` | mempool/src/store.ts:70-80 | storing keeps index and bound |
| `Mempool.PutIsExact` | mempool/src/store.ts:70-80 | storing takes out the victim only if the store is full without the hash itself, keeps all else, and makes the hash the youngest |
| `Mempool.SelectedIff` | mempool/src/store.ts:175-209 | a listing walks exactly the stored hashes of the index and chain asked for |
| `Mempool.DeleteKeepsInv` | mempool/src/store.ts:133-138 | deleting keeps the index and removes that record only |
| `Mempool.SweepIsExact` | mempool/src/store.ts:144-153 | a sweep removes exactly the records past the cutoff as computed |
| `Mempool.SweepIsEarly` | mempool/src/store.ts:140-153 | the computed cutoff also takes records still within grace of their deadline, unlike its comment |
| `Mempool.AllIsFilter` | mempool/src/store.ts:155-163 | listing by status gives exactly the records with that status |
| `Mempool.AllDistinct` | mempool/src/store.ts:155-163 | none of them twice |
| `Mempool.PageAt` | mempool/src/store.ts:175-209 | a page after the i-th record holds the next records and names the last if more follow |
| `MempoolStore.IntentStore.Set` | mempool/src/store.ts:70-80 | delete, make room, insert |
| `MempoolStore.IntentStore.EvictOne` | mempool/src/store.ts:93-102 | removes the oldest terminal record, or the oldest of all when none is terminal |
| `MempoolStore.IntentStore.UpdateStatus` | mempool/src/store.ts:122-131 | refuses an unknown or terminal record; otherwise changes its status in place and moves its hash to the new status's index |
| `MempoolStore.IntentStore.Delete` | mempool/src/store.ts:133-138 | takes the hash out of the map, its order and its index, and says whether it was there |
| `MempoolStore.IntentStore.IndexAdd` | mempool/src/store.ts:57-64 | adds to one status's set |
| `MempoolStore.IntentStore.IndexRemove` | mempool/src/store.ts:66-68 | removes from one status's set |
| `MempoolStore.IntentStore.EvictExpired` | mempool/src/store.ts:144-153 | removes exactly the records past the cutoff and counts them |
| `MempoolStore.IntentStore.All` | mempool/src/store.ts:155-163 | the records of an index in its order |
| `MempoolStore.IntentStore.List` | mempool/src/store.ts:175-209 | one pass yields the records after the cursor up to the limit, and a cursor exactly when more follow |
| `MempoolStore.ListPendingPage` | sdk/src/client.ts:325-354 | a page of one status, or an error for a bad limit or unknown cursor, as the server answers it |
| `MempoolStore.HandleListIntents` | mempool/src/server.ts:335-386 | refuses exactly a malformed or out-of-range parameter or an unknown cursor, and otherwise lists with the defaults filled in |
| `MempoolStore.ListPending` | sdk/src/client.ts:414-440 | all records once each in order if they fit the page budget, else exactly the first pages and a cursor from which the rest follows; no cursor repeats |
| `MempoolStore.NextCursor` | sdk/src/client.ts:430-433 | the cursor of a page has not been seen before |
| `Solving.WinsAtMostOnce` | solver/src/solver.ts:463-739 | over any run with monotone clock and roomy caches `fill` succeeds at most once per hash |
| `Solving.AtMostFourCalls` | solver/src/solver.ts:780-801 | and is called at most four times if the hash is only served with its own signed intent |
| `Spellings.WonOnceIffOneSpelling` | solver/src/solver.ts:516-564 | for an intent that can be filled: every run over a set of served hashes wins it at most once if and only if it has one spelling among them |
| `Spellings.TwoSpellingsWinTwice` | solver/src/solver.ts:555-564 | a run that serves one intent under two spellings and wins both |
| `Spellings.InvalidTurnsResetRetries` | solver/src/solver.ts:580-591 | for every n a run that calls a hash n times, always with its own intent but with a bad signature after each failure |
| `Solving.NeverOvercommits` | solver/src/solver.ts:657-738 | with steady balances, after every turn commitments are covered, nothing is reserved, and held is the sum of the fills not definitely failed |
| `Solving.CallIsCovered` | solver/src/inventory.ts:55-98 | during a call the reservation is covered and exactly it is released or held, so the clamp never fires |
| `Solving.NothingStaysReserved` | solver/src/inventory.ts:55-98 | no reservation outlives its tick |
| `Solving.FillIsInTime` | solver/src/solver.ts:516-526 | a fill is offered only before the deadline up to which a retired hash is remembered |
| `SolverLimits.CallsIff` | solver/src/solver.ts:516-739 | the executor is called exactly on a record that is not retired or waiting, carries its hash's own intent, verifies, and is offered a fill |
| `SolverLimits.BeginForgets` | solver/src/solver.ts:463-500 | a tick begins by forgetting exactly what has expired and the commitments held for the balance to refresh |
| `SolverLimits.RetiresIff` | solver/src/solver.ts:555-739 | a hash is retired exactly on a mismatch, a terminal skip, a win, a fill lost to another, or a fourth failure; and then remembered ten minutes at least and to its deadline |
| `SolverLimits.RetriesExactly` | solver/src/solver.ts:780-801 | up to the third failure the hash stays with its count and a doubled wait, and the fourth retires it |
| `SolverLimits.BudgetIsUsed` | solver/src/solver.ts:780-801 | an intent that stays fillable and keeps failing is tried once, then after one, two and four seconds, and only then retired |
| `SolverLimits.BreakerExactly` | solver/src/solver.ts:605-643 | an implausible turn counts, and at the limit halts; a call starts the count again; nothing else touches either |
| `SolverLimits.ImplausibleTurnsHalt` | solver/src/solver.ts:605-630 | as many implausible turns in a row as the limit halt the solver |
| `SolverLimits.HaltedForever` | solver/src/solver.ts:463-539 | a halted solver does nothing any more |
| `Solving.AttemptKeeps` | solver/src/solver.ts:644-738 | every outcome of a call leaves its hash accounted for |
| `Solving.ConsiderKeeps` | solver/src/solver.ts:548-739 | so does every other decision |
| `Commitments.ReserveThenRelease` | solver/src/inventory.ts:55-98 | a reservation released or held is as if booked directly |
| `Lru.PutEffect` | solver/src/seen-lru.ts:77-88 | a full cache gives up exactly its least recently used entry |
| `Lru.UseMakesYoungest` | solver/src/seen-lru.ts:56-88 | a live lookup and a store make their hash the most recently used and leave the others in their order |
| `Lru.PutBounded` | solver/src/seen-lru.ts:77-88 | and never outgrows its size |
| `Lru.FindEffect` | solver/src/seen-lru.ts:56-68 | a lookup forgets only an expired entry |
| `Lru.SweepEffect` | solver/src/seen-lru.ts:96-106 | a sweep removes exactly the expired entries |
| `Lru.PutWithRoom` | solver/src/seen-lru.ts:77-88 | with room for all hashes nothing is evicted for space |
| `Solver.LruCache.Get` | solver/src/seen-lru.ts:56-68 | the lookup with lazy expiry and refresh |
| `Solver.LruCache.Set` | solver/src/seen-lru.ts:77-88 | the insertion with eviction |
| `Solver.LruCache.EvictExpired` | solver/src/seen-lru.ts:96-106 | removes exactly the expired entries and counts them |
| `Solver.LruCache.Delete` | solver/src/solver.ts:271-273 | the deletion |
| `Solver.InFlightTracker.Reserve` | solver/src/inventory.ts:55-57 | adds to the active bucket |
| `Solver.InFlightTracker.Release` | solver/src/inventory.ts:71-79 | subtracts with a clamp at zero |
| `Solver.InFlightTracker.HoldForRefresh` | solver/src/inventory.ts:93-98 | moves from active to held |
| `Solver.InFlightTracker.FlushHeld` | solver/src/inventory.ts:111-115 | empties the held bucket |
| `Solver.InFlightTracker.ReservedFor` | solver/src/inventory.ts:122-124 | active plus held |
| `Solver.Solver.RunTick` | solver/src/solver.ts:463-539 | sweeps both caches, empties the held bucket and visits the records in order until the breaker halts |
| `Solver.Solver.Visit` | solver/src/solver.ts:516-526 | seen and backed-off records are passed over |
| `Solver.Solver.Consider` | solver/src/solver.ts:548-739 | an intent not matching its hash is retired, an unverified one only loses its retry state, an implausible one counts towards the halt, a terminal skip is retired, a fill is tried |
| `Solver.Solver.AttemptFill` | solver/src/solver.ts:644-738 | reserve, call, book, settle the reservation last |
| `Solver.Solver.ScheduleRetry` | solver/src/solver.ts:780-801 | counts one more attempt and doubles the back-off, or retires the hash once the limit is passed |
| `Quote.ProceedsAreExactFloor` | solver/src/quote.ts:101-122 | proceeds are the floor of the exact converted value, whichever side has more decimals |
| `Quote.MarginIsExact` | solver/src/quote.ts:320-325 | the scaled margin gate equals the exact ratio test |
| `Quote.FillIsCovered` | solver/src/quote.ts:250-417 | a fill has margin, a plausible profit, headroom and uncommitted balance |
| `Quote.OfferedIff` | solver/src/quote.ts:250-417 | a fill is offered if and only if chain, headroom, asset, eligibility, price, margin, plausibility, uncommitted balance and both native balances allow it; the implausible and the terminal skip are as exact |
| `Quote.SkipsFor` | solver/src/quote.ts:250-417 | a skip is called after the first gate that fails |
| `Quote.PlausibleIsExact` | solver/src/quote.ts:337-352 | the bound in whole basis points equals an exact ratio test |
| `Quote.TerminalIsForever` | solver/src/quote.ts:256-297 | a terminal skip never turns into a fill |
| `Headroom.QuoteOutlastsTheLock` | solver/src/quote.ts:266-290 | an offered fill still passes the contract's deadline gate two minutes later |
| `Units.PrintThenParse` | sdk/src/units.ts:45-92 | parsing undoes printing for every canonical amount and decimals |
| `Units.ParseThenPrint` | sdk/src/units.ts:45-92 | printing a parsed amount drops only zeros that do not count |
| `Units.AcceptsIff` | sdk/src/units.ts:45-66 | an amount is accepted exactly if, white space around it aside, it is digits and perhaps a point and no more digits than there are decimals |
| `Units.PrintsIff` | sdk/src/units.ts:78-92 | printing accepts exactly digits, perhaps after a minus sign, white space around them aside |
| `Units.NegativePrints` | sdk/src/units.ts:78-92 | a sign is printed exactly on what is not zero, in front of the amount without it |
| `Units.EvmAddressToBytes32` | sdk/src/units.ts:107-120 | refuses exactly what is not `0x` and forty hex digits; otherwise the word spells the address and passes the contract's shape check unless zero |

## Left out

- Storage lifetime and archival of the settlement contract, its events, and its read-only fee quotes: host behaviour.
- Two-step admin, endpoint and peer changes: any configuration may appear at any time, except that the escrow's own peer entry is fixed in the composed system.
- Signature verification on both chains, EIP-712 hashing, LayerZero verification and its fee payments: an intent hash is an injective name, `send` may fail, and the fee a caller pays is not debited.
- `classic_asset_xdr` and the address derivation behind it: a function parameter.
- `Messages.EncodeFill`: the test-only encoder of the contract writes into a growing buffer; only its layout is modelled.
- The Solidity escrow is not part of this model; `MockEscrow` stands in for it, and a stray confirmation whose solver word is not a padded address is ignored, as the contract's own comment says the escrow does.
- `CrossChainSafety.NoConfirmationAfterTimeout`: at a grace of exactly the dispatch window the two windows share one instant, so strict separation is claimed only above it.
- `ValueCaps.WindowNeverExceedsCap`: one duration and cap for the whole run; changing the duration mid-run is not covered.
- The words of the nonce bitmap are integers and a one-bit mask is a power of two; the settlement contract's `word * 64` overflow is a trap.
- `Relaying.CursorNeverSkips`: claimed for ticks that do not roll back; `RollbackSafeIffBackward` says when a rollback keeps it.
- Status reports to the mempool, metrics text, health endpoints, back-off sleeps, logging and configuration loading.
- A crash of the relayer between saving the checkpoint and persisting the dead letters.
- The string form of message keys in the relayer, and refund scanning, log decoding and nonce recovery in the EVM watcher.
- `EvmWatcher.EVMSourceWatcher.Poll`: a maximum block range of zero is excluded, because the loop of the source does not advance on it.
- `CrossChainSafety.BothPaidIffTimeoutAfterDelivery`: for intents recorded under the escrow's own eid; a record another chain registered under the same hash has its own deadline.
- `MempoolStore.ListPendingPage`: network failures, retries of a request and malformed response bodies are not modelled.
- HTTP between client and mempool: a page request is a call; listings by `listPendingPages` and by chain id are not claimed lossless.
- The signature verification cache of the solver: whether a signature verifies is an input of each turn.
- `Quote.Evaluate`: both clock readings of one evaluation are one; fees are not negative.
- `solver/src/executor.ts`, `relayer/src/evm-delivery.ts`, `relayer/src/soroban-watcher.ts`, `solver/src/released-watcher.ts`: client glue behind the interfaces modelled here.
- `MockSettlement` and `MockLayerZeroEndpoint` in `test/mocks.ts`: the contract and the network model take their place.
