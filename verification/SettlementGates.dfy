/**
 * When each call on the settlement contract succeeds, stated as what its caller can check
 * beforehand, and what a success leaves. Then over runs: what a pause stops and what it
 * does not, and that no record exceeds the per-intent maximum.
 */
module SettlementGates {
  import opened Prelude
  import opened Types
  import opened Radix
  import opened Nonces
  import opened ValueCaps
  import opened Asset
  import opened Messages
  import opened Settlement
  import opened SettlementSafety

  // --- Other contracts --------------------------------------------------------

  /** The sender has the amount and the token lets it go. */
  predicate Payable(env: Env, b: Balances, token: Address, from: Address, to: Address, amount: i128) {
    0 <= amount <= BalanceOf(b, token, from) && env.transferOk(token, from, to)
  }

  lemma TransferIff(env: Env, b: Balances, token: Address, from: Address, to: Address, amount: i128)
    ensures Transfer(env, b, token, from, to, amount).Some? <==> Payable(env, b, token, from, to, amount)
  {
  }

  /** A reward that is owed can be paid. */
  predicate RewardPayable(env: Env, s: State, to: Address, reward: i128, due: bool) {
    due && reward > 0 && s.cfg.nativeToken.Some? ==> Payable(env, s.balances, s.cfg.nativeToken.value, s.self, to, reward)
  }

  lemma RewardIff(env: Env, s: State, to: Address, reward: i128, due: bool)
    ensures PayReward(env, s, to, reward, due).Ok? <==> RewardPayable(env, s, to, reward, due)
    ensures PayReward(env, s, to, reward, due).Ok? ==>
      PayReward(env, s, to, reward, due).value == s.(balances := PayReward(env, s, to, reward, due).value.balances)
  {
    hide Transfer, Payable;
    if s.cfg.nativeToken.Some? { TransferIff(env, s.balances, s.cfg.nativeToken.value, s.self, to, reward); }
  }

  /** There is a peer and an endpoint, the fee covers the quote, and the endpoint takes the packet. */
  predicate Sendable(env: Env, cfg: Config, dstEid: Eid, payload: seq<byte>, lzFee: i128) {
    && dstEid in cfg.peers && cfg.endpoint.Some?
    && var packet := Packet(dstEid, cfg.peers[dstEid], payload);
       env.quote(packet) <= lzFee && env.sendOk(packet)
  }

  lemma DispatchIff(env: Env, s: State, dstEid: Eid, payload: seq<byte>, lzFee: i128)
    ensures Dispatch(env, s, dstEid, payload, lzFee).Ok? <==> Sendable(env, s.cfg, dstEid, payload, lzFee)
    ensures Dispatch(env, s, dstEid, payload, lzFee).Ok? ==>
      Dispatch(env, s, dstEid, payload, lzFee).value == s.(outbox := s.outbox + [Packet(dstEid, s.cfg.peers[dstEid], payload)])
    ensures dstEid in s.cfg.peers && s.cfg.endpoint.Some? && lzFee < env.quote(Packet(dstEid, s.cfg.peers[dstEid], payload)) ==>
      Dispatch(env, s, dstEid, payload, lzFee) == Err(InsufficientLzFee)
  {
  }

  // --- Filling ------------------------------------------------------------------

  /** Twelve zeros, then an address that is not zero. */
  predicate PaddedAddress(w: Word) {
    (forall i :: 0 <= i < 12 ==> w[i] == 0) && !(forall i :: 12 <= i < 32 ==> w[i] == 0)
  }

  lemma PaddedIff(w: Word)
    ensures IsEvmAddress(w) <==> PaddedAddress(w)
  {
  }

  /** Who may fill, with how much, and until when. */
  predicate MayFill(env: Env, s: State, solver: Address, solverEvm: Word, h: Word, amount: i128) {
    && PaddedAddress(solverEvm) && h in s.intents && h !in s.settled && h !in s.cancelled
    && var rec := s.intents[h];
       && rec.status == Locked && 0 < amount && rec.minDestAmount <= amount
       && SatAdd64(env.now, 1800) <= rec.deadline
       && (env.now < rec.reservationExpires ==>
             && (rec.preferredSolver.Some? ==> rec.preferredSolver.value == solver)
             && (rec.solverEvm.Some? ==> rec.solverEvm.value == solverEvm))
  }

  lemma ValidateIff(env: Env, s: State, solver: Address, solverEvm: Word, h: Word, amount: i128)
    ensures ValidateFill(env, s, solver, solverEvm, h, amount).Ok? <==> MayFill(env, s, solver, solverEvm, h, amount)
    ensures ValidateFill(env, s, solver, solverEvm, h, amount).Ok? ==> ValidateFill(env, s, solver, solverEvm, h, amount).value == s.intents[h]
  {
    hide IsEvmAddress, PaddedAddress;
    PaddedIff(solverEvm);
  }

  /** Which refusal a fill meets: each error on exactly the inputs that pass every gate before its own. */
  lemma FillErrors(env: Env, s: State, solver: Address, solverEvm: Word, h: Word, amount: i128)
    ensures var r := ValidateFill(env, s, solver, solverEvm, h, amount);
      r.Err? ==>
        && (r.error == InvalidSolverEvm <==> !PaddedAddress(solverEvm))
        && (r.error == IntentFinalized <==> PaddedAddress(solverEvm) && (h in s.settled || h in s.cancelled))
        && (r.error == IntentNotFound <==> PaddedAddress(solverEvm) && !Known(s, h))
        && (r.error == AlreadyFilled <==>
              PaddedAddress(solverEvm) && h in s.intents && h !in s.settled && h !in s.cancelled && s.intents[h].status != Locked)
        && (r.error == IntentExpired <==>
              PaddedAddress(solverEvm) && Open(s, h) && SatAdd64(env.now, 1800) > s.intents[h].deadline)
        && (r.error == InvalidAmount ==> amount <= 0)
        && (r.error == InsufficientFillAmount ==> 0 < amount < s.intents[h].minDestAmount)
        && (r.error in {InvalidAmount, InsufficientFillAmount, ReservedForSolver} ==>
              Open(s, h) && SatAdd64(env.now, 1800) <= s.intents[h].deadline)
        && r.error in {InvalidSolverEvm, IntentFinalized, IntentNotFound, AlreadyFilled, IntentExpired, ReservedForSolver,
                       InvalidAmount, InsufficientFillAmount}
  {
    hide IsEvmAddress, PaddedAddress;
    PaddedIff(solverEvm);
  }

  predicate Open(s: State, h: Word) {
    h in s.intents && h !in s.settled && h !in s.cancelled && s.intents[h].status == Locked
  }

  /** The record a fill by this solver leaves. */
  function FilledBy(env: Env, rec: IntentRecord, solver: Address, solverEvm: Word, amount: i128, status: IntentStatus): IntentRecord {
    IntentRecord(rec.intentHash, rec.srcEid, rec.recipient, rec.destAsset, rec.minDestAmount, rec.deadline, rec.preferredSolver,
                 rec.reservationExpires, status, Some(solver), Some(solverEvm), amount, env.sequence)
  }

  predicate MayDeliver(env: Env, s: State, solver: Address, solverEvm: Word, h: Word, amount: i128) {
    && solver in env.auth && !s.cfg.paused && MayFill(env, s, solver, solverEvm, h, amount)
    && Payable(env, s.balances, s.intents[h].destAsset, solver, s.intents[h].recipient, amount)
  }

  /** What delivering leaves: marker, record, transfer, and nothing else. */
  ghost predicate Delivered(env: Env, s: State, t: State, solver: Address, solverEvm: Word, h: Word, amount: i128)
    requires h in s.intents
  {
    var rec := s.intents[h];
    t == s.(settled := s.settled + {h}, balances := t.balances,
            intents := s.intents[h := FilledBy(env, rec, solver, solverEvm, amount, Filled)],
            deliveries := s.deliveries + [Delivery(h, rec.destAsset, solver, rec.recipient, amount)])
  }

  /** `deliver_intent` succeeds exactly for an authorized solver on an unpaused contract who may fill and can pay. */
  lemma DeliverIff(env: Env, s: State, solver: Address, solverEvm: Word, h: Word, amount: i128)
    ensures DeliverIntent(env, s, solver, solverEvm, h, amount).Ok? <==> MayDeliver(env, s, solver, solverEvm, h, amount)
    ensures DeliverIntent(env, s, solver, solverEvm, h, amount).Ok? ==>
      Delivered(env, s, DeliverIntent(env, s, solver, solverEvm, h, amount).value, solver, solverEvm, h, amount)
    ensures solver in env.auth && s.cfg.paused ==> DeliverIntent(env, s, solver, solverEvm, h, amount) == Err(ContractPaused)
  {
    hide ValidateFill, MayFill, Transfer, Payable;
    ValidateIff(env, s, solver, solverEvm, h, amount);
    if ValidateFill(env, s, solver, solverEvm, h, amount).Ok? {
      InIntents(env, s, solver, solverEvm, h, amount);
      TransferIff(env, s.balances, s.intents[h].destAsset, solver, s.intents[h].recipient, amount);
    }
  }

  lemma InIntents(env: Env, s: State, solver: Address, solverEvm: Word, h: Word, amount: i128)
    requires MayFill(env, s, solver, solverEvm, h, amount)
    ensures h in s.intents
  {
  }

  /** A confirmation, field by field: version, type, hash, the filler's EVM word, amount and ledger. */
  ghost predicate ConfirmsFill(payload: seq<byte>, h: Word, solverEvm: Word, amount: i128, ledger: u32) {
    && |payload| == 90 && payload[0] == 1 && payload[1] == 2 && payload[2..34] == h && payload[34..66] == solverEvm
    && Num(256, payload[66..82]) == AsU128(amount) && Num(256, payload[82..90]) == ledger
  }

  lemma EncodedConfirms(h: Word, solverEvm: Word, amount: i128, ledger: u32)
    ensures ConfirmsFill(EncodeFillConfirmed(h, solverEvm, amount, ledger), h, solverEvm, amount, ledger)
  {
    hide BigEndian, Num;
    FillConfirmedFields(h, solverEvm, amount, ledger);
  }

  /** `fill_intent` succeeds exactly if delivering would and its confirmation, of this very fill, can be sent at the offered fee. */
  lemma FillIff(env: Env, s: State, solver: Address, solverEvm: Word, h: Word, amount: i128, lzFee: i128)
    requires HashInv(s, h)
    ensures var r := FillIntent(env, s, solver, solverEvm, h, amount, lzFee);
      var payload := EncodeFillConfirmed(h, solverEvm, amount, env.sequence);
      && (r.Ok? <==> MayDeliver(env, s, solver, solverEvm, h, amount) && Sendable(env, s.cfg, s.intents[h].srcEid, payload, lzFee))
      && (solver in env.auth && s.cfg.paused ==> r == Err(ContractPaused))
      && (r.Ok? ==>
            && ConfirmsFill(payload, h, solverEvm, amount, env.sequence)
            && r.value.outbox == s.outbox + [Packet(s.intents[h].srcEid, s.cfg.peers[s.intents[h].srcEid], payload)]
            && r.value.intents == s.intents[h := FilledBy(env, s.intents[h], solver, solverEvm, amount, ConfirmationSent)]
            && r.value.settled == s.settled + {h} && r.value.confirmationSent == s.confirmationSent + {h}
            && r.value.cancelled == s.cancelled && r.value.nonces == s.nonces && r.value.caps == s.caps && r.value.cfg == s.cfg
            && r.value.deliveries == s.deliveries + [Delivery(h, s.intents[h].destAsset, solver, s.intents[h].recipient, amount)])
  {
    hide ValidateFill, MayFill, Transfer, Payable, Dispatch, EncodeFillConfirmed, UpdateReputation, ConfirmsFill, DeliveriesAgree, MessagesAgree;
    ValidateIff(env, s, solver, solverEvm, h, amount);
    if ValidateFill(env, s, solver, solverEvm, h, amount).Ok? {
      InIntents(env, s, solver, solverEvm, h, amount);
      var rec := s.intents[h];
      TransferIff(env, s.balances, rec.destAsset, solver, rec.recipient, amount);
      var payload := EncodeFillConfirmed(h, solverEvm, amount, env.sequence);
      EncodedConfirms(h, solverEvm, amount, env.sequence);
      var s1 := SettleDelivery(env, s, h, FilledRecord(env, rec, solver, solverEvm, amount), solver, amount);
      if s1.Ok? { DispatchIff(env, s1.value, rec.srcEid, payload, lzFee); }
      hide Sendable;
    }
  }

  /** Another caller may claim a reward once this many ledgers have passed. */
  predicate RewardDue(env: Env, rec: IntentRecord, caller: Address) {
    rec.solver != Some(caller) && env.sequence >= rec.fillLedger + 360
  }

  predicate MayConfirm(env: Env, s: State, caller: Address, h: Word, lzFee: i128) {
    && caller in env.auth && h in s.intents && h !in s.confirmationSent
    && var rec := s.intents[h];
       && rec.status == Filled && env.now <= SatAdd64(rec.deadline, 1800) && rec.solver.Some? && rec.solverEvm.Some?
       && Sendable(env, s.cfg, rec.srcEid, EncodeFillConfirmed(rec.intentHash, rec.solverEvm.value, rec.fillAmount, rec.fillLedger), lzFee)
       && RewardPayable(env, s, caller, s.cfg.dispatchKeeperReward, RewardDue(env, rec, caller))
  }

  /** `dispatch_confirmation` succeeds exactly on a filled, unconfirmed intent inside the window, if the message and a due reward go out. */
  lemma ConfirmIff(env: Env, s: State, caller: Address, h: Word, lzFee: i128)
    ensures DispatchConfirmation(env, s, caller, h, lzFee).Ok? <==> MayConfirm(env, s, caller, h, lzFee)
    ensures DispatchConfirmation(env, s, caller, h, lzFee).Ok? ==>
      var rec, t := s.intents[h], DispatchConfirmation(env, s, caller, h, lzFee).value;
      var payload := EncodeFillConfirmed(rec.intentHash, rec.solverEvm.value, rec.fillAmount, rec.fillLedger);
      && ConfirmsFill(payload, rec.intentHash, rec.solverEvm.value, rec.fillAmount, rec.fillLedger)
      && t == s.(outbox := s.outbox + [Packet(rec.srcEid, s.cfg.peers[rec.srcEid], payload)],
                 confirmationSent := s.confirmationSent + {h}, intents := s.intents[h := rec.(status := ConfirmationSent)],
                 reputation := t.reputation, balances := t.balances)
  {
    hide Dispatch, EncodeFillConfirmed, UpdateReputation, PayReward, RewardPayable, Sendable, ConfirmsFill;
    if h in s.intents && s.intents[h].solver.Some? && s.intents[h].solverEvm.Some? {
      var rec := s.intents[h];
      var payload := EncodeFillConfirmed(rec.intentHash, rec.solverEvm.value, rec.fillAmount, rec.fillLedger);
      DispatchIff(env, s, rec.srcEid, payload, lzFee);
      EncodedConfirms(rec.intentHash, rec.solverEvm.value, rec.fillAmount, rec.fillLedger);
      var sent := Dispatch(env, s, rec.srcEid, payload, lzFee);
      if sent.Ok? {
        var s2 := MarkConfirmed(env, sent.value, h, rec, rec.solver.value);
        var due := caller != rec.solver.value && SatSub(env.sequence, rec.fillLedger) >= DISPATCH_REWARD_GRACE_LEDGERS;
        assert due == RewardDue(env, rec, caller);
        RewardIff(env, s2, caller, s.cfg.dispatchKeeperReward, due);
        SameFunds(env, s, s2, caller, s.cfg.dispatchKeeperReward, due);
      }
    }
  }

  lemma SameFunds(env: Env, s: State, t: State, to: Address, reward: i128, due: bool)
    requires s.cfg == t.cfg && s.balances == t.balances && s.self == t.self
    ensures RewardPayable(env, s, to, reward, due) <==> RewardPayable(env, t, to, reward, due)
  {
  }

  // --- Cancelling ---------------------------------------------------------------

  predicate MayCancel(env: Env, s: State, caller: Address, h: Word, lzFee: i128) {
    && caller in env.auth && h in s.intents && h !in s.cancelled && h !in s.settled
    && s.intents[h].status == Locked && env.now >= s.intents[h].deadline
    && Sendable(env, s.cfg, s.intents[h].srcEid, [1, 3] + s.intents[h].intentHash + [0], lzFee)
    && RewardPayable(env, s, caller, s.cfg.keeperReward, true)
  }

  /** `cancel_expired_intent` succeeds exactly on an open intent whose deadline has come, if the message and the reward go out. */
  lemma CancelExpiredIff(env: Env, s: State, caller: Address, h: Word, lzFee: i128)
    ensures CancelExpiredIntent(env, s, caller, h, lzFee).Ok? <==> MayCancel(env, s, caller, h, lzFee)
    ensures CancelExpiredIntent(env, s, caller, h, lzFee).Ok? ==>
      var rec, t := s.intents[h], CancelExpiredIntent(env, s, caller, h, lzFee).value;
      t == s.(cancelled := s.cancelled + {h}, intents := s.intents[h := rec.(status := Cancelled)], balances := t.balances,
              outbox := s.outbox + [Packet(rec.srcEid, s.cfg.peers[rec.srcEid], [1, 3] + rec.intentHash + [0])])
    ensures caller in env.auth && h in s.intents && h !in s.cancelled && h !in s.settled && s.intents[h].status == Locked
            && env.now < s.intents[h].deadline ==>
      CancelExpiredIntent(env, s, caller, h, lzFee) == Err(DeadlineNotPassed)
  {
    hide Dispatch, PayReward, RewardPayable, Sendable;
    if h in s.intents {
      var marked, rec := MarkCancelled(s, h), s.intents[h];
      DispatchIff(env, marked, rec.srcEid, [1, 3] + rec.intentHash + [0], lzFee);
      var sent := Dispatch(env, marked, rec.srcEid, [1, 3] + rec.intentHash + [0], lzFee);
      if sent.Ok? {
        RewardIff(env, sent.value, caller, s.cfg.keeperReward, true);
        SameFunds(env, s, sent.value, caller, s.cfg.keeperReward, true);
      }
    }
  }

  /** Which refusal an expiry meets. */
  lemma ExpiryErrors(env: Env, s: State, caller: Address, h: Word, lzFee: i128)
    ensures var r := CancelExpiredIntent(env, s, caller, h, lzFee);
      caller in env.auth ==>
        && (h in s.cancelled ==> r == Err(IntentFinalized))
        && (h !in s.cancelled && h in s.settled ==> r == Err(AlreadyFilled))
        && (!Known(s, h) ==> r == Err(IntentNotFound))
        && (Open(s, h) && env.now < s.intents[h].deadline ==> r == Err(DeadlineNotPassed))
  {
    hide Dispatch, PayReward;
  }

  predicate FilledTooLong(env: Env, s: State, h: Word) {
    h in s.intents && s.intents[h].status == Filled && env.now > SatAdd64(s.intents[h].deadline, 1800)
  }

  /** Which refusal a dispatch meets. */
  lemma ConfirmErrors(env: Env, s: State, caller: Address, h: Word, lzFee: i128)
    ensures var r := DispatchConfirmation(env, s, caller, h, lzFee);
      caller in env.auth ==>
        && (h in s.confirmationSent ==> r == Err(IntentFinalized))
        && (h !in s.confirmationSent && h !in s.intents ==> r == Err(IntentNotFound))
        && (h !in s.confirmationSent && h in s.intents && s.intents[h].status != Filled ==> r == Err(AlreadyFilled))
        && (h !in s.confirmationSent && FilledTooLong(env, s, h) ==> r == Err(IntentExpired))
  {
    hide Dispatch, PayReward, EncodeFillConfirmed;
  }

  // --- Inbound ------------------------------------------------------------------

  /** The endpoint signed, and the sender is the peer of its chain. */
  predicate Authorized(env: Env, cfg: Config, origin: Origin) {
    && cfg.endpoint.Some? && cfg.endpoint.value in env.auth
    && origin.srcEid in cfg.peers && cfg.peers[origin.srcEid] == origin.sender
  }

  lemma AuthorizedIff(env: Env, s: State, origin: Origin)
    ensures AuthorizeInbound(env, s, origin).None? <==> Authorized(env, s.cfg, origin)
  {
  }

  predicate FreshNonce(s: State, origin: Origin) {
    origin.nonce >= 1 && !Consumed(s.nonces, origin.srcEid, origin.nonce)
  }

  lemma NonceIff(s: State, eid: Eid, nonce: u64)
    ensures ConsumeNonce(s, eid, nonce).Ok? <==> nonce >= 1 && !Consumed(s.nonces, eid, nonce)
    ensures ConsumeNonce(s, eid, nonce).Ok? ==>
      ConsumeNonce(s, eid, nonce).value == s.(nonces := ConsumeNonce(s, eid, nonce).value.nonces)
    ensures ConsumeNonce(s, eid, nonce).Ok? ==> forall e: Eid, n: u64 ::
      Consumed(ConsumeNonce(s, eid, nonce).value.nonces, e, n) <==> Consumed(s.nonces, e, n) || (e == eid && n == nonce)
  {
    hide AcceptNonce, Consumed;
    AcceptIffNotConsumed(s.nonces, eid, nonce);
    if AcceptNonce(s.nonces, eid, nonce).Some? {
      forall e: Eid, n: u64 ensures
        Consumed(AcceptNonce(s.nonces, eid, nonce).value, e, n) <==> Consumed(s.nonces, e, n) || (e == eid && n == nonce)
      {
        AcceptConsumes(s.nonces, eid, nonce, e, n);
      }
    }
  }

  predicate Known(s: State, h: Word) {
    h in s.settled || h in s.cancelled || h in s.intents
  }

  /** Not paused, here or for its chain, and not replayed. */
  predicate Deliverable(env: Env, s: State, origin: Origin) {
    Authorized(env, s.cfg, origin) && !s.cfg.paused && origin.srcEid !in s.cfg.pausedEids && FreshNonce(s, origin)
  }

  /** A new intent of positive amount, due within a week, admitted by the caps. */
  predicate Registrable(env: Env, s: State, fi: FillInstruction) {
    && !Known(s, fi.intentHash) && fi.minDestAmount > 0 && fi.deadline <= SatAdd64(env.now, 604800)
    && Admissible(s.caps, fi.minDestAmount, env.now)
  }

  /** The terms as sent, under the chain they came from, reserved for the window asked or to the deadline. */
  predicate RegisteredAs(env: Env, srcEid: Eid, fi: FillInstruction, rec: IntentRecord) {
    && rec.intentHash == fi.intentHash && rec.srcEid == srcEid && rec.recipient == fi.recipient && rec.destAsset == fi.destAsset
    && rec.minDestAmount == fi.minDestAmount && rec.deadline == fi.deadline && rec.preferredSolver == fi.preferredSolver
    && rec.solverEvm == fi.lockedSolver && rec.solver == None && rec.status == Locked
    && rec.reservationExpires <= fi.deadline
    && (rec.reservationExpires < fi.deadline ==> fi.reservationWindow > 0 && rec.reservationExpires == env.now + fi.reservationWindow)
    && (fi.reservationWindow > 0 ==> rec.reservationExpires <= SatAdd64(env.now, fi.reservationWindow))
  }

  /** A FillInstruction registers exactly if it is deliverable and registrable, and then as sent. */
  lemma RegistersIff(env: Env, s: State, origin: Origin, fi: FillInstruction)
    ensures var r := LzReceive(env, s, origin, FillMsg(fi)); var h := fi.intentHash;
      && (r.Ok? && h !in s.intents && h in r.value.intents <==> Deliverable(env, s, origin) && Registrable(env, s, fi))
      && (r.Ok? && h !in s.intents && h in r.value.intents ==>
            && RegisteredAs(env, origin.srcEid, fi, r.value.intents[h])
            && r.value.intents == s.intents[h := r.value.intents[h]])
  {
    hide EnforceValueCaps, AuthorizeInbound, ConsumeNonce, Admissible, Consumed;
    AuthorizedIff(env, s, origin);
    NonceIff(s, origin.srcEid, origin.nonce);
    AdmitsIff(s.caps, fi.minDestAmount, env.now);
    assert Authorized(env, s.cfg, origin) ==> origin.srcEid in s.cfg.peers;
  }

  /** What is known already is acknowledged without effect, but for its nonce. */
  lemma KnownIsAcknowledged(env: Env, s: State, origin: Origin, fi: FillInstruction)
    requires Deliverable(env, s, origin) && Known(s, fi.intentHash)
    ensures var r := LzReceive(env, s, origin, FillMsg(fi)); r.Ok? && r.value == s.(nonces := r.value.nonces)
  {
    hide EnforceValueCaps, AuthorizeInbound, ConsumeNonce, Consumed;
    AuthorizedIff(env, s, origin);
    NonceIff(s, origin.srcEid, origin.nonce);
  }

  /** An inbound cancel succeeds exactly if authorized and not replayed, paused or not; it cancels what is unknown or open. */
  lemma CancelInboundIff(env: Env, s: State, origin: Origin, h: Word, reason: byte)
    ensures var r := LzReceive(env, s, origin, CancelMsg(h, reason));
      && (r.Ok? <==> Authorized(env, s.cfg, origin) && FreshNonce(s, origin))
      && (r.Ok? ==>
            && r.value == s.(nonces := r.value.nonces, cancelled := r.value.cancelled, intents := r.value.intents)
            && (h in r.value.cancelled <==> h in s.cancelled || (h !in s.settled && (h in s.intents ==> s.intents[h].status == Locked)))
            && r.value.cancelled <= s.cancelled + {h}
            && r.value.intents == (if h in r.value.cancelled && h !in s.cancelled && h in s.intents
                                   then s.intents[h := s.intents[h].(status := Cancelled)] else s.intents))
  {
    hide AuthorizeInbound, ConsumeNonce, Consumed;
    AuthorizedIff(env, s, origin);
    NonceIff(s, origin.srcEid, origin.nonce);
  }

  /** Which refusal a registration meets on its way in. */
  lemma RegistrationErrors(env: Env, s: State, origin: Origin, fi: FillInstruction)
    ensures var r := LzReceive(env, s, origin, FillMsg(fi)); var unknown := !Known(s, fi.intentHash);
      r.Err? ==>
        && (r.error == StaleNonce <==> Authorized(env, s.cfg, origin) && !Stopped(s, origin) && !FreshNonce(s, origin))
        && (r.error == ContractPaused <==> Authorized(env, s.cfg, origin) && Stopped(s, origin))
        && (r.error == InvalidAmount <==> Deliverable(env, s, origin) && unknown && fi.minDestAmount <= 0)
        && (r.error == DeadlineTooFar <==>
              Deliverable(env, s, origin) && unknown && fi.minDestAmount > 0 && fi.deadline > SatAdd64(env.now, 604800))
        && (r.error == ExceedsMaxIntentAmount <==>
              && Deliverable(env, s, origin) && unknown && fi.minDestAmount > 0 && fi.deadline <= SatAdd64(env.now, 604800)
              && !WithinMax(s.caps, fi.minDestAmount))
  {
    hide EnforceValueCaps, ConsumeNonce, Admissible, Consumed, WithinMax, Breaches;
    AuthorizedIff(env, s, origin);
    NonceIff(s, origin.srcEid, origin.nonce);
    NonceError(s, origin.srcEid, origin.nonce);
    AdmitsIff(s.caps, fi.minDestAmount, env.now);
    CapErrors(s.caps, fi.minDestAmount, env.now);
  }

  predicate Stopped(s: State, origin: Origin) {
    s.cfg.paused || origin.srcEid in s.cfg.pausedEids
  }

  lemma NonceError(s: State, eid: Eid, nonce: u64)
    ensures ConsumeNonce(s, eid, nonce).Err? ==> ConsumeNonce(s, eid, nonce).error == StaleNonce
  {
    hide AcceptNonce;
  }

  lemma CapErrors(s: CapState, amount: i128, now: u64)
    ensures EnforceValueCaps(s, amount, now).Err? ==>
      EnforceValueCaps(s, amount, now).error in {ExceedsMaxIntentAmount, RollingWindowCapTriggered, ArithmeticError}
  {
    hide WindowStart;
  }

  /** The asset an identifier stands for: native if configured, a classic asset's contract, or a listed contract; nothing else. */
  lemma ResolvesIff(env: Env, cfg: Config, id: seq<byte>, token: Address)
    ensures ResolveDestAsset(env, cfg, id) == Ok(token) <==>
      && |id| <= 69 && Parse(id).Some?
      && (Parse(id).value.Native? ==> cfg.nativeToken == Some(token))
      && (Parse(id).value.Classic? ==> token == env.sacAddress(Parse(id).value.code, Parse(id).value.issuer))
      && (Parse(id).value.Contract? ==> token == id && id in cfg.allowedTokens)
  {
    hide Parse;
  }

  /** An admin call opens the latch exactly with the admin's signature and not before the named time. */
  lemma ResetIff(env: Env, s: State)
    ensures ResetCap(env, s).Ok? <==>
      && s.cfg.admin.Some? && s.cfg.admin.value in env.auth
      && (s.caps.resetEarliestAt.Some? ==> env.now >= s.caps.resetEarliestAt.value)
    ensures ResetCap(env, s).Ok? ==> ResetCap(env, s).value == s.(caps := ResetCap(env, s).value.caps)
  {
    hide WindowStart;
  }

  lemma PruneIff(s: State, eid: Eid)
    ensures PruneWords(s, eid) == Err(ContractPaused) <==> s.cfg.paused
    ensures PruneWords(s, eid).Ok? ==> PruneWords(s, eid).value == s.(nonces := PruneWords(s, eid).value.nonces)
  {
    hide PruneNonceWords;
  }

  // --- A pause ------------------------------------------------------------------

  /** A paused contract refuses an authorized registration, and keeps its nonce for later. */
  lemma PausedRefuses(env: Env, s: State, origin: Origin, fi: FillInstruction)
    requires s.cfg.paused || origin.srcEid in s.cfg.pausedEids
    ensures Authorized(env, s.cfg, origin) ==> LzReceive(env, s, origin, FillMsg(fi)) == Err(ContractPaused)
    ensures Commit(env, s, Receive(origin, FillMsg(fi))) == s
  {
    hide AuthorizeInbound;
    AuthorizedIff(env, s, origin);
  }

  /** So for what arrives as bytes. */
  lemma PausedRefusesBytes(env: Env, s: State, origin: Origin, bytes: seq<byte>)
    requires s.cfg.paused || origin.srcEid in s.cfg.pausedEids
    ensures DecodeMessage(bytes).Ok? && DecodeMessage(bytes).value.WireFillInstruction? ==> Commit(env, s, ReceiveBytes(origin, bytes)) == s
  {
    hide AuthorizeInbound, DecodeMessage, ResolveDestAsset;
    if DecodeMessage(bytes).Ok? { DecodedShape(bytes); }
  }

  /** Nothing new is registered and nothing is settled. */
  predicate Frozen(s: State, t: State) {
    t.intents.Keys == s.intents.Keys && t.settled == s.settled
  }

  /** While paused, no call of any kind registers or settles. */
  lemma PausedFreezes(env: Env, s: State, c: Call)
    requires s.cfg.paused
    ensures Frozen(s, Commit(env, s, c))
  {
    hide DecodeMessage, EncodeFillConfirmed, EncodeCancel, ValidateFill, ApplyInbound, Transfer, Dispatch, PayReward, UpdateReputation,
         PruneNonceWords, ResetRollingWindowCap, AuthorizeInbound, ResolveDestAsset, DeliverIntent, FillIntent, DispatchConfirmation,
         CancelExpiredIntent, PruneWords, ResetCap;
    match c
    case Deliver(solver, solverEvm, h, amount) => DeliverIff(env, s, solver, solverEvm, h, amount);
    case Fill(solver, solverEvm, h, amount, lzFee) => PausedFill(env, s, solver, solverEvm, h, amount, lzFee);
    case Confirm(caller, h, lzFee) => ConfirmIff(env, s, caller, h, lzFee);
    case CancelExpired(caller, h, lzFee) => CancelExpiredIff(env, s, caller, h, lzFee);
    case Receive(origin, m) => PausedInbound(env, s, origin, m);
    case ReceiveBytes(origin, bytes) =>
      if DecodeMessage(bytes).Ok? {
        DecodedShape(bytes);
        var m := ResolveMessage(env, s.cfg, DecodeMessage(bytes).value);
        if m.Ok? { PausedInbound(env, s, origin, m.value); }
      }
    case Prune(eid) => PruneIff(s, eid);
    case ResetWindow => ResetIff(env, s);
  }

  lemma PausedFill(env: Env, s: State, solver: Address, solverEvm: Word, h: Word, amount: i128, lzFee: i128)
    requires s.cfg.paused
    ensures FillIntent(env, s, solver, solverEvm, h, amount, lzFee).Err?
  {
  }

  lemma PausedInbound(env: Env, s: State, origin: Origin, m: LzMessage)
    requires s.cfg.paused
    ensures ApplyInbound(env, s, origin, m).Ok? ==> Frozen(s, ApplyInbound(env, s, origin, m).value)
  {
    hide ConsumeNonce, Consumed;
    NonceIff(s, origin.srcEid, origin.nonce);
  }

  /** Every admin change along the way leaves the contract paused. */
  ghost predicate StaysPaused(es: seq<Event>) {
    forall e <- es :: e.Admin? ==> e.cfg.paused
  }

  /** No call changes the admin's settings. */
  predicate SameSettings(s: State, t: State) {
    t.cfg == s.cfg && t.caps.maxIntentAmount == s.caps.maxIntentAmount
  }

  lemma CallKeepsSettings(env: Env, s: State, c: Call)
    ensures SameSettings(s, Commit(env, s, c))
  {
    hide DecodeMessage, EncodeFillConfirmed, EncodeCancel, ValidateFill, ApplyInbound, Transfer, Dispatch, PayReward, UpdateReputation,
         PruneNonceWords, ResetRollingWindowCap, AuthorizeInbound, ResolveDestAsset, DeliverIntent, FillIntent, DispatchConfirmation,
         CancelExpiredIntent, PruneWords;
    match c
    case Deliver(solver, solverEvm, h, amount) => DeliverIff(env, s, solver, solverEvm, h, amount);
    case Fill(solver, solverEvm, h, amount, lzFee) => FillKeepsSettings(env, s, solver, solverEvm, h, amount, lzFee);
    case Confirm(caller, h, lzFee) => ConfirmIff(env, s, caller, h, lzFee);
    case CancelExpired(caller, h, lzFee) => CancelExpiredIff(env, s, caller, h, lzFee);
    case Receive(origin, m) => InboundKeepsSettings(env, s, origin, m);
    case ReceiveBytes(origin, bytes) =>
      if DecodeMessage(bytes).Ok? {
        DecodedShape(bytes);
        var m := ResolveMessage(env, s.cfg, DecodeMessage(bytes).value);
        if m.Ok? { InboundKeepsSettings(env, s, origin, m.value); }
      }
    case Prune(eid) => PruneIff(s, eid);
    case ResetWindow => ResetKeepsSettings(env, s);
  }

  lemma FillKeepsSettings(env: Env, s: State, solver: Address, solverEvm: Word, h: Word, amount: i128, lzFee: i128)
    ensures FillIntent(env, s, solver, solverEvm, h, amount, lzFee).Ok? ==> SameSettings(s, FillIntent(env, s, solver, solverEvm, h, amount, lzFee).value)
  {
    hide ValidateFill, Transfer, EncodeFillConfirmed, UpdateReputation;
  }

  lemma InboundKeepsSettings(env: Env, s: State, origin: Origin, m: LzMessage)
    ensures ApplyInbound(env, s, origin, m).Ok? ==> SameSettings(s, ApplyInbound(env, s, origin, m).value)
  {
    hide AcceptNonce, EnforceValueCaps;
    if m.FillMsg? { CapsKeepMax(s.caps, m.fi.minDestAmount, env.now); }
  }

  lemma CapsKeepMax(s: CapState, amount: i128, now: u64)
    ensures EnforceValueCaps(s, amount, now).Ok? ==> EnforceValueCaps(s, amount, now).value.0.maxIntentAmount == s.maxIntentAmount
  {
    hide WindowStart;
  }

  lemma ResetKeepsSettings(env: Env, s: State)
    ensures ResetCap(env, s).Ok? ==> SameSettings(s, ResetCap(env, s).value)
  {
    hide WindowStart;
  }

  /** Over any stretch of run that stays paused nothing is registered and nothing settled. */
  lemma {:induction false} PausedRunFreezes(s: State, es: seq<Event>)
    requires s.cfg.paused && StaysPaused(es)
    ensures Frozen(s, SettlementSafety.Run(s, es)) && SettlementSafety.Run(s, es).cfg.paused
  {
    hide Commit;
    if es != [] {
      var m := |es| - 1;
      var here := SettlementSafety.Run(s, es[..m]);
      PausedRunFreezes(s, es[..m]);
      assert es[m] in es;
      match es[m]
      case Invoked(env, c) => PausedFreezes(env, here, c); CallKeepsSettings(env, here, c);
      case Admin(cfg, caps) =>
      case Tokens(balances) =>
    }
  }

  function Unpaused(s: State): State {
    s.(cfg := s.cfg.(paused := false))
  }

  function UnpausedResult(r: Result<State, Error>): Result<State, Error> {
    match r
    case Ok(t) => Ok(Unpaused(t))
    case Err(e) => Err(e)
  }

  /** The ways out of the contract: confirming, cancelling, being cancelled. */
  predicate WayOut(c: Call) {
    c.Confirm? || c.CancelExpired? || (c.Receive? && c.message.CancelMsg?)
  }

  /** They answer as if there were no pause. */
  lemma PauseSparesWaysOut(env: Env, s: State, c: Call)
    requires WayOut(c)
    ensures Execute(env, Unpaused(s), c) == UnpausedResult(Execute(env, s, c))
  {
    hide DispatchConfirmation, CancelExpiredIntent, LzReceive;
    match c
    case Confirm(caller, h, lzFee) => PauseSparesConfirm(env, s, caller, h, lzFee);
    case CancelExpired(caller, h, lzFee) => PauseSparesExpiry(env, s, caller, h, lzFee);
    case Receive(origin, m) => PauseSparesCancel(env, s, origin, m);
  }

  lemma PauseSparesConfirm(env: Env, s: State, caller: Address, h: Word, lzFee: i128)
    ensures DispatchConfirmation(env, Unpaused(s), caller, h, lzFee) == UnpausedResult(DispatchConfirmation(env, s, caller, h, lzFee))
  {
    hide EncodeFillConfirmed, UpdateReputation, Transfer;
  }

  lemma PauseSparesExpiry(env: Env, s: State, caller: Address, h: Word, lzFee: i128)
    ensures CancelExpiredIntent(env, Unpaused(s), caller, h, lzFee) == UnpausedResult(CancelExpiredIntent(env, s, caller, h, lzFee))
  {
    hide EncodeCancel, Transfer;
  }

  lemma PauseSparesCancel(env: Env, s: State, origin: Origin, m: LzMessage)
    requires m.CancelMsg?
    ensures LzReceive(env, Unpaused(s), origin, m) == UnpausedResult(LzReceive(env, s, origin, m))
  {
    hide AcceptNonce;
  }

  /** A cancel that arrives as bytes is such a way out too. */
  lemma PauseSparesCancelBytes(env: Env, s: State, origin: Origin, bytes: seq<byte>, h: Word, reason: byte)
    requires DecodeMessage(bytes) == Ok(WireCancel(h, reason))
    ensures LzReceiveBytes(env, s, origin, bytes) == LzReceive(env, s, origin, CancelMsg(h, reason))
    ensures LzReceiveBytes(env, Unpaused(s), origin, bytes) == UnpausedResult(LzReceiveBytes(env, s, origin, bytes))
  {
    hide DecodeMessage, LzReceive, LzReceiveBytes;
    PauseSparesCancel(env, s, origin, CancelMsg(h, reason));
    BytesAreCancel(env, s, origin, bytes, h, reason);
    BytesAreCancel(env, Unpaused(s), origin, bytes, h, reason);
  }

  lemma BytesAreCancel(env: Env, s: State, origin: Origin, bytes: seq<byte>, h: Word, reason: byte)
    requires DecodeMessage(bytes) == Ok(WireCancel(h, reason))
    ensures LzReceiveBytes(env, s, origin, bytes) == LzReceive(env, s, origin, CancelMsg(h, reason))
  {
    hide DecodeMessage, ApplyInbound, AuthorizeInbound;
    DecodedShape(bytes);
  }

  // --- The per-intent maximum ------------------------------------------------------

  /** Whatever registers while a positive maximum is set is at most it. */
  lemma RegistersWithinMax(env: Env, s: State, c: Call, h: Word)
    requires s.caps.maxIntentAmount.Some? && s.caps.maxIntentAmount.value > 0
    requires h !in s.intents && h in Commit(env, s, c).intents
    ensures Commit(env, s, c).intents[h].minDestAmount <= s.caps.maxIntentAmount.value
  {
    hide DecodeMessage, EncodeFillConfirmed, EncodeCancel, ValidateFill, ApplyInbound, Transfer, Dispatch, PayReward, UpdateReputation,
         PruneNonceWords, ResetRollingWindowCap, AuthorizeInbound, ResolveDestAsset, DeliverIntent, DispatchConfirmation,
         CancelExpiredIntent, PruneWords, ResetCap, SettleDelivery;
    match c
    case Deliver(solver, solverEvm, g, amount) => DeliverIff(env, s, solver, solverEvm, g, amount);
    case Fill(solver, solverEvm, g, amount, lzFee) => FillRegistersNothing(env, s, solver, solverEvm, g, amount, lzFee);
    case Confirm(caller, g, lzFee) => ConfirmIff(env, s, caller, g, lzFee);
    case CancelExpired(caller, g, lzFee) => CancelExpiredIff(env, s, caller, g, lzFee);
    case Receive(origin, m) => InboundWithinMax(env, s, origin, m, h);
    case ReceiveBytes(origin, bytes) =>
      if DecodeMessage(bytes).Ok? {
        DecodedShape(bytes);
        var m := ResolveMessage(env, s.cfg, DecodeMessage(bytes).value);
        if m.Ok? { InboundWithinMax(env, s, origin, m.value, h); }
      }
    case Prune(eid) => PruneIff(s, eid);
    case ResetWindow => ResetIff(env, s);
  }

  lemma FillRegistersNothing(env: Env, s: State, solver: Address, solverEvm: Word, g: Word, amount: i128, lzFee: i128)
    requires FillIntent(env, s, solver, solverEvm, g, amount, lzFee).Ok?
    ensures FillIntent(env, s, solver, solverEvm, g, amount, lzFee).value.intents.Keys == s.intents.Keys
  {
    hide ValidateFill, MayFill, Transfer, EncodeFillConfirmed, UpdateReputation;
    ValidateIff(env, s, solver, solverEvm, g, amount);
    InIntents(env, s, solver, solverEvm, g, amount);
  }

  lemma InboundWithinMax(env: Env, s: State, origin: Origin, m: LzMessage, h: Word)
    requires s.caps.maxIntentAmount.Some? && s.caps.maxIntentAmount.value > 0
    requires ApplyInbound(env, s, origin, m).Ok? && h !in s.intents && h in ApplyInbound(env, s, origin, m).value.intents
    ensures ApplyInbound(env, s, origin, m).value.intents[h].minDestAmount <= s.caps.maxIntentAmount.value
  {
    hide ConsumeNonce, Consumed, EnforceValueCaps;
    NonceIff(s, origin.srcEid, origin.nonce);
    if m.FillMsg? { WithinMaximum(s.caps, m.fi.minDestAmount, env.now); }
  }

  ghost predicate KeepsMax(es: seq<Event>, max: i128) {
    forall e <- es :: e.Admin? ==> e.caps.maxIntentAmount == Some(max)
  }

  /** Over any run under one positive maximum, every record registered in it is at most that. */
  lemma {:induction false} RunRegistersWithinMax(s: State, es: seq<Event>, max: i128, h: Word)
    requires Inv(s) && SaneRun(es) && KeepsMax(es, max) && max > 0 && s.caps.maxIntentAmount == Some(max)
    ensures var t := SettlementSafety.Run(s, es);
      t.caps.maxIntentAmount == Some(max) && (h !in s.intents && h in t.intents ==> t.intents[h].minDestAmount <= max)
  {
    hide Commit, HashInv;
    if es != [] {
      var m := |es| - 1;
      var here := SettlementSafety.Run(s, es[..m]);
      RunRegistersWithinMax(s, es[..m], max, h);
      assert es[m] in es;
      if es[m].Invoked? {
        CallKeepsSettings(es[m].env, here, es[m].call);
        if h !in here.intents && h in SettlementSafety.Run(s, es).intents { RegistersWithinMax(es[m].env, here, es[m].call, h); }
      }
      RunInv(s, es[..m]);
      StepKept(here, es[m], h);
      TermsStay(here, SettlementSafety.Run(s, es), h);
    }
  }

  lemma TermsStay(s: State, t: State, h: Word)
    requires Kept(s, t, h)
    ensures h in s.intents ==> h in t.intents && t.intents[h].minDestAmount == s.intents[h].minDestAmount
  {
    hide HashInv;
  }
}
