/**
 * The settlement contract as lib.rs writes it: one storage key set after another, and a
 * host that drops all of it when the invocation fails. Each method is proved against
 * the transition of module Settlement it implements, whose branches it follows; what it
 * adds is the order of the writes, that a failure after some of them leaves nothing
 * behind (`Run`, `Invoke`), and the pruning loop. What the transitions themselves are
 * worth is proved in SettlementSafety, SettlementEffects, FillEquivalence and Confluence.
 */
module Contract {
  import opened Prelude
  import opened Types
  import opened Bitmap
  import opened Nonces
  import opened ValueCaps
  import opened Asset
  import opened Messages
  import opened Settlement

  class Perihelion {
    /** The host's store: the contract's own entries, token balances, sent messages. */
    var store: State

    constructor (initial: State)
      ensures store == initial
    {
      store := initial;
    }

    /** A success leaves the state the specification names; a failure has its error. */
    ghost predicate Agrees(r: Result<(), Error>, spec: Result<State, Error>)
      reads this
    {
      match spec
      case Ok(s) => r == Ok(()) && store == s
      case Err(e) => r == Err(e)
    }

    // --- Calls into other contracts ---------------------------------------------

    method TransferToken(env: Env, token: Address, from: Address, to: Address, amount: i128) returns (r: Result<(), Error>)
      modifies this
      ensures match Settlement.Transfer(env, old(store.balances), token, from, to, amount)
        case None => r == Err(HostTrap)
        case Some(b) => r == Ok(()) && store == old(store).(balances := b)
    {
      var available := BalanceOf(store.balances, token, from);
      if amount < 0 || available < amount || !env.transferOk(token, from, to) { return Err(HostTrap); }
      store := store.(balances := store.balances[(token, from) := available - amount]);
      store := store.(balances := store.balances[(token, to) := BalanceOf(store.balances, token, to) + amount]);
      r := Ok(());
    }

    method Dispatch(env: Env, dstEid: Eid, payload: seq<byte>, lzFee: i128) returns (r: Result<(), Error>)
      modifies this
      ensures Agrees(r, Settlement.Dispatch(env, old(store), dstEid, payload, lzFee))
    {
      if dstEid !in store.cfg.peers { return Err(UntrustedPeer); }
      var receiver := store.cfg.peers[dstEid];
      if store.cfg.endpoint.None? { return Err(NotInitialized); }
      var params := Packet(dstEid, receiver, payload);
      if lzFee < env.quote(params) { return Err(InsufficientLzFee); }
      if !env.sendOk(params) { return Err(HostTrap); }
      store := store.(outbox := store.outbox + [params]);
      r := Ok(());
    }

    method PayReward(env: Env, to: Address, reward: i128, due: bool) returns (r: Result<(), Error>)
      modifies this
      ensures Agrees(r, Settlement.PayReward(env, old(store), to, reward, due))
    {
      if reward > 0 && due && store.cfg.nativeToken.Some? {
        r := TransferToken(env, store.cfg.nativeToken.value, store.self, to, reward);
      } else {
        r := Ok(());
      }
    }

    // --- Filling ------------------------------------------------------------------

    method ValidateAndStageFill(env: Env, solver: Address, solverEvm: Word, h: Word, amount: i128)
      returns (r: Result<IntentRecord, Error>)
      ensures r == ValidateFill(env, store, solver, solverEvm, h, amount)
    {
      hide IsEvmAddress;
      var wellFormed := IsEvmWord(solverEvm);
      if !wellFormed { return Err(InvalidSolverEvm); }
      if h in store.settled || h in store.cancelled { return Err(IntentFinalized); }
      if h !in store.intents { return Err(IntentNotFound); }
      var rec := store.intents[h];
      if rec.status != Locked { return Err(AlreadyFilled); }
      if SatAdd64(env.now, MIN_DISPATCH_WINDOW) > rec.deadline { return Err(IntentExpired); }
      if rec.preferredSolver.Some? {
        if rec.preferredSolver.value != solver && env.now < rec.reservationExpires { return Err(ReservedForSolver); }
      }
      if rec.solverEvm.Some? {
        if rec.solverEvm.value != solverEvm && env.now < rec.reservationExpires { return Err(ReservedForSolver); }
      }
      if amount <= 0 { return Err(InvalidAmount); }
      if amount < rec.minDestAmount { return Err(InsufficientFillAmount); }
      r := Ok(rec);
    }

    /** Marker first, then the transfer; what was delivered is remembered. */
    method SettleAndDeliver(env: Env, h: Word, rec: IntentRecord, solver: Address, amount: i128) returns (r: Result<(), Error>)
      modifies this
      ensures Agrees(r, SettleDelivery(env, old(store), h, rec, solver, amount))
    {
      store := store.(settled := store.settled + {h});
      var _ :- TransferToken(env, rec.destAsset, solver, rec.recipient, amount);
      store := store.(deliveries := store.deliveries + [Delivery(h, rec.destAsset, solver, rec.recipient, amount)]);
      r := Ok(());
    }

    method DeliverIntent(env: Env, solver: Address, solverEvm: Word, h: Word, amount: i128) returns (r: Result<(), Error>)
      modifies this
      ensures Agrees(r, Settlement.DeliverIntent(env, old(store), solver, solverEvm, h, amount))
    {
      hide ValidateFill, FilledRecord;
      if solver !in env.auth { return Err(HostTrap); }
      if store.cfg.paused { return Err(ContractPaused); }
      var rec :- ValidateAndStageFill(env, solver, solverEvm, h, amount);
      rec := FilledRecord(env, rec, solver, solverEvm, amount);
      store := store.(intents := store.intents[h := rec]);
      r := SettleAndDeliver(env, h, rec, solver, amount);
    }

    method UpdateSolverReputation(solver: Address, latency: u32)
      modifies this
      ensures store == old(store).(reputation := UpdateReputation(old(store.reputation), solver, latency))
    {
      var rep := if solver in store.reputation then store.reputation[solver] else Reputation(0, 0, 0);
      rep := rep.(fillCount := SatAdd64(rep.fillCount, 1));
      rep := rep.(successCount := SatAdd64(rep.successCount, 1));
      if rep.ewmaLatency == 0 {
        rep := rep.(ewmaLatency := latency);
      } else {
        rep := rep.(ewmaLatency := (rep.ewmaLatency * 9 + latency) / 10);
      }
      store := store.(reputation := store.reputation[solver := rep]);
    }

    method DispatchConfirmation(env: Env, caller: Address, h: Word, lzFee: i128) returns (r: Result<(), Error>)
      modifies this
      ensures Agrees(r, Settlement.DispatchConfirmation(env, old(store), caller, h, lzFee))
    {
      hide UpdateReputation, Settlement.Dispatch, Settlement.PayReward;
      if caller !in env.auth { return Err(HostTrap); }
      if h in store.confirmationSent { return Err(IntentFinalized); }
      if h !in store.intents { return Err(IntentNotFound); }
      var rec := store.intents[h];
      if rec.status != Filled { return Err(AlreadyFilled); }
      if env.now > SatAdd64(rec.deadline, MIN_DISPATCH_WINDOW) { return Err(IntentExpired); }
      if rec.solver.None? || rec.solverEvm.None? { return Err(IntentNotFound); }
      var solver := rec.solver.value;
      var _ :- Dispatch(env, rec.srcEid, ConfirmationPayload(rec, rec.solverEvm.value), lzFee);
      store := store.(confirmationSent := store.confirmationSent + {h});
      rec := rec.(status := ConfirmationSent);
      store := store.(intents := store.intents[h := rec]);
      UpdateSolverReputation(solver, SatSub(env.sequence, rec.fillLedger));
      var due := caller != solver && SatSub(env.sequence, rec.fillLedger) >= DISPATCH_REWARD_GRACE_LEDGERS;
      r := PayReward(env, caller, store.cfg.dispatchKeeperReward, due);
    }

    method FillIntent(env: Env, solver: Address, solverEvm: Word, h: Word, amount: i128, lzFee: i128) returns (r: Result<(), Error>)
      modifies this
      ensures Agrees(r, Settlement.FillIntent(env, old(store), solver, solverEvm, h, amount, lzFee))
    {
      hide UpdateReputation, Settlement.Dispatch, ValidateFill, SettleDelivery;
      if solver !in env.auth { return Err(HostTrap); }
      if store.cfg.paused { return Err(ContractPaused); }
      var rec :- ValidateAndStageFill(env, solver, solverEvm, h, amount);
      rec := FilledRecord(env, rec, solver, solverEvm, amount);
      var _ :- SettleAndDeliver(env, h, rec, solver, amount);
      var _ :- Dispatch(env, rec.srcEid, ConfirmationPayload(rec, solverEvm), lzFee);
      rec := rec.(status := ConfirmationSent);
      store := store.(intents := store.intents[h := rec]);
      store := store.(confirmationSent := store.confirmationSent + {h});
      UpdateSolverReputation(solver, SatSub(env.sequence, rec.fillLedger));
      r := Ok(());
    }

    // --- Cancelling -----------------------------------------------------------------

    method CancelExpiredIntent(env: Env, caller: Address, h: Word, lzFee: i128) returns (r: Result<(), Error>)
      modifies this
      ensures Agrees(r, Settlement.CancelExpiredIntent(env, old(store), caller, h, lzFee))
    {
      hide Settlement.Dispatch, Settlement.PayReward;
      if caller !in env.auth { return Err(HostTrap); }
      if h in store.cancelled { return Err(IntentFinalized); }
      if h in store.settled { return Err(AlreadyFilled); }
      if h !in store.intents { return Err(IntentNotFound); }
      var rec := store.intents[h];
      if rec.status != Locked {
        return Err(if rec.status == Filled || rec.status == ConfirmationSent then AlreadyFilled else IntentFinalized);
      }
      if env.now < rec.deadline { return Err(DeadlineNotPassed); }
      rec := rec.(status := Cancelled);
      store := store.(intents := store.intents[h := rec]);
      store := store.(cancelled := store.cancelled + {h});
      var _ :- Dispatch(env, rec.srcEid, EncodeCancel(rec.intentHash, CANCEL_REASON_EXPIRED), lzFee);
      r := PayReward(env, caller, store.cfg.keeperReward, true);
    }

    // --- Inbound --------------------------------------------------------------------

    method AcceptNonce(eid: Eid, nonce: u64) returns (r: Result<(), Error>)
      modifies this
      ensures Agrees(r, ConsumeNonce(old(store), eid, nonce))
    {
      if nonce == 0 { return Err(StaleNonce); }
      var floor := store.nonces.Floor(eid);
      if nonce < floor { return Err(StaleNonce); }
      var wordIndex, bitIndex := nonce / 64, nonce % 64;
      var word := store.nonces.Word(eid, wordIndex);
      if BitSet(word, bitIndex) { return Err(StaleNonce); }
      word := SetBit(word, bitIndex);
      store := store.(nonces := store.nonces.(words := store.nonces.words[(eid, wordIndex) := word]));
      r := Ok(());
    }

    method PruneNonceWords(eid: Eid) returns (r: Result<(), Error>)
      modifies this
      ensures Agrees(r, PruneWords(old(store), eid))
    {
      hide Pruned, Nonces.PruneNonceWords, BitSet;
      if store.cfg.paused { return Err(ContractPaused); }
      ghost var before := store.nonces;
      var floor := store.nonces.Floor(eid);
      var word, scanned := floor / 64, 0;
      PruneStarts(before, eid);
      while scanned < MAX_PRUNE_WORDS_PER_CALL
        invariant 0 <= scanned <= MAX_PRUNE_WORDS_PER_CALL && 0 <= word
        invariant store == old(store).(nonces := store.nonces)
        invariant Pruned(before, eid, store.nonces, word, scanned)
      {
        var words := store.nonces.words;
        ghost var here := store.nonces;
        if (eid, word) !in words || words[(eid, word)] != CompleteMask(word) {
          PruneEnds(before, eid, store.nonces, word, scanned);
          break;
        }
        store := store.(nonces := store.nonces.(words := words - {(eid, word)}));
        PruneNext(before, eid, here, word, scanned);
        word, scanned := word + 1, scanned + 1;
      }
      if scanned == MAX_PRUNE_WORDS_PER_CALL { PruneEnds(before, eid, store.nonces, word, scanned); }
      if word * 64 >= U64_LIMIT { return Err(HostTrap); }
      var newFloor := word * 64;
      if newFloor > floor {
        store := store.(nonces := store.nonces.(floors := store.nonces.floors[eid := newFloor]));
      }
      r := Ok(());
    }

    method EnforceValueCaps(env: Env, amount: i128) returns (r: Result<bool, Error>)
      modifies this
      ensures match ValueCaps.EnforceValueCaps(old(store.caps), amount, env.now)
        case Ok((caps, admitted)) => r == Ok(admitted) && store == old(store).(caps := caps)
        case Err(e) => r == Err(e)
    {
      hide WindowStart;
      var caps := store.caps;
      if caps.maxIntentAmount.Some? {
        if caps.maxIntentAmount.value > 0 && amount > caps.maxIntentAmount.value { return Err(ExceedsMaxIntentAmount); }
      }
      if caps.WindowOn() {
        if caps.triggered { return Err(RollingWindowCapTriggered); }
        var windowStart := WindowStart(env.now, caps.duration.value);
        if windowStart > caps.Latest() {
          caps := caps.(latestWindowStart := Some(windowStart), buckets := caps.buckets - {caps.Latest()});
        }
        var accumulated := caps.Bucket(windowStart) + amount;
        if accumulated > I128_MAX || accumulated < -I128_MAX - 1 { return Err(ArithmeticError); }
        caps := caps.(buckets := caps.buckets[windowStart := accumulated]);
        if accumulated > caps.cap.value {
          if env.now + caps.duration.value >= U64_LIMIT { return Err(ArithmeticError); }
          store := store.(caps := caps.(triggered := true, resetEarliestAt := Some(env.now + caps.duration.value)));
          return Ok(false);
        }
        store := store.(caps := caps);
      }
      r := Ok(true);
    }

    method ResetRollingWindowCap(env: Env) returns (r: Result<(), Error>)
      modifies this
      ensures Agrees(r, ResetCap(env, old(store)))
    {
      hide WindowStart;
      if store.cfg.admin.None? { return Err(NotInitialized); }
      if store.cfg.admin.value !in env.auth { return Err(HostTrap); }
      var caps := store.caps;
      if caps.resetEarliestAt.Some? {
        if env.now < caps.resetEarliestAt.value { return Err(DeadlineNotPassed); }
      }
      if caps.latestWindowStart.Some? {
        caps := caps.(buckets := caps.buckets - {caps.latestWindowStart.value});
      }
      var duration := caps.duration.UnwrapOr(0);
      if duration > 0 {
        caps := caps.(latestWindowStart := Some(WindowStart(env.now, duration)));
      }
      store := store.(caps := caps.(triggered := false, resetEarliestAt := None));
      r := Ok(());
    }

    method OnFillInstruction(env: Env, srcEid: Eid, fi: FillInstruction) returns (r: Result<(), Error>)
      modifies this
      ensures Agrees(r, Settlement.OnFillInstruction(env, old(store), srcEid, fi))
    {
      hide ValueCaps.EnforceValueCaps;
      var h := fi.intentHash;
      if h in store.settled || h in store.cancelled || h in store.intents { return Ok(()); }
      if fi.minDestAmount <= 0 { return Err(InvalidAmount); }
      if fi.deadline > SatAdd64(env.now, MAX_DEADLINE_HORIZON) { return Err(DeadlineTooFar); }
      if srcEid !in store.cfg.peers { return Err(UntrustedPeer); }
      var admitted :- EnforceValueCaps(env, fi.minDestAmount);
      if !admitted { return Ok(()); }
      store := store.(intents := store.intents[h := NewRecord(env, srcEid, fi)]);
      r := Ok(());
    }

    method OnCancelInbound(h: Word)
      modifies this
      ensures store == Settlement.OnCancelInbound(old(store), h)
    {
      if h in store.settled || h in store.cancelled { return; }
      if h !in store.intents {
        store := store.(cancelled := store.cancelled + {h});
        return;
      }
      var rec := store.intents[h];
      if rec.status == Locked {
        rec := rec.(status := Cancelled);
        store := store.(intents := store.intents[h := rec]);
        store := store.(cancelled := store.cancelled + {h});
      }
    }

    method AuthorizeInbound(env: Env, origin: Origin) returns (r: Option<Error>)
      ensures r == Settlement.AuthorizeInbound(env, store, origin)
    {
      if store.cfg.endpoint.None? { return Some(NotInitialized); }
      if store.cfg.endpoint.value !in env.auth { return Some(HostTrap); }
      if origin.srcEid !in store.cfg.peers { return Some(UntrustedPeer); }
      if store.cfg.peers[origin.srcEid] != origin.sender { return Some(UntrustedPeer); }
      r := None;
    }

    method ApplyInbound(env: Env, origin: Origin, m: LzMessage) returns (r: Result<(), Error>)
      modifies this
      ensures Agrees(r, Settlement.ApplyInbound(env, old(store), origin, m))
    {
      hide ConsumeNonce, Settlement.OnFillInstruction, Settlement.OnCancelInbound;
      match m
      case FillMsg(fi) =>
        if store.cfg.paused { return Err(ContractPaused); }
        if origin.srcEid in store.cfg.pausedEids { return Err(ContractPaused); }
        var _ :- AcceptNonce(origin.srcEid, origin.nonce);
        r := OnFillInstruction(env, origin.srcEid, fi);
      case CancelMsg(h, _) =>
        var _ :- AcceptNonce(origin.srcEid, origin.nonce);
        OnCancelInbound(h);
        r := Ok(());
    }

    method LzReceive(env: Env, origin: Origin, m: LzMessage) returns (r: Result<(), Error>)
      modifies this
      ensures Agrees(r, Settlement.LzReceive(env, old(store), origin, m))
    {
      hide Settlement.ApplyInbound;
      var refused := AuthorizeInbound(env, origin);
      if refused.Some? { return Err(refused.value); }
      r := ApplyInbound(env, origin, m);
    }

    method ResolveDestAssetId(env: Env, id: seq<byte>) returns (r: Result<Address, Error>)
      ensures r == ResolveDestAsset(env, store.cfg, id)
    {
      hide Parse;
      if |id| > MAX_DEST_ASSET_LEN { return Err(InvalidDestAsset); }
      var parsed := ParseText(id);
      match parsed
      case None => r := Err(InvalidDestAsset);
      case Some(Native) => r := if store.cfg.nativeToken.Some? then Ok(store.cfg.nativeToken.value) else Err(NotInitialized);
      case Some(Classic(code, issuer)) => r := Ok(env.sacAddress(code, issuer));
      case Some(Contract) => r := if id in store.cfg.allowedTokens then Ok(id) else Err(UnsupportedDestAsset);
    }

    method LzReceiveBytes(env: Env, origin: Origin, message: seq<byte>) returns (r: Result<(), Error>)
      modifies this
      ensures Agrees(r, Settlement.LzReceiveBytes(env, old(store), origin, message))
    {
      hide DecodeMessage, WellFormedFill, Settlement.ApplyInbound;
      if DecodeMessage(message).Ok? { DecodedShape(message); }
      var refused := AuthorizeInbound(env, origin);
      if refused.Some? { return Err(refused.value); }
      var wire :- DecodeMessageBytes(message);
      match wire
      case WireFillInstruction(f) =>
        if f.lockedSolver.None? { return Err(MalformedPayload); }
        var asset :- ResolveDestAssetId(env, f.destAsset);
        r := ApplyInbound(env, origin, FillMsg(AsInstruction(f, asset)));
      case WireCancel(h, reason) =>
        r := ApplyInbound(env, origin, CancelMsg(h, reason));
    }

    // --- The host ---------------------------------------------------------------------

    method Run(env: Env, c: Call) returns (r: Result<(), Error>)
      modifies this
      ensures Agrees(r, Execute(env, old(store), c))
    {
      hide Settlement.DeliverIntent, Settlement.DispatchConfirmation, Settlement.FillIntent, Settlement.CancelExpiredIntent;
      hide Settlement.LzReceive, Settlement.LzReceiveBytes, PruneWords, ResetCap;
      match c
      case Deliver(solver, solverEvm, h, amount) => r := DeliverIntent(env, solver, solverEvm, h, amount);
      case Confirm(caller, h, lzFee) => r := DispatchConfirmation(env, caller, h, lzFee);
      case Fill(solver, solverEvm, h, amount, lzFee) => r := FillIntent(env, solver, solverEvm, h, amount, lzFee);
      case CancelExpired(caller, h, lzFee) => r := CancelExpiredIntent(env, caller, h, lzFee);
      case Receive(origin, message) => r := LzReceive(env, origin, message);
      case ReceiveBytes(origin, bytes) => r := LzReceiveBytes(env, origin, bytes);
      case Prune(eid) => r := PruneNonceWords(eid);
      case ResetWindow => r := ResetRollingWindowCap(env);
    }

    /** One invocation: all of what it wrote if it succeeds, none of it if it fails. */
    method Invoke(env: Env, c: Call) returns (r: Result<(), Error>)
      modifies this
      ensures Agrees(r, Execute(env, old(store), c))
      ensures store == Commit(env, old(store), c)
    {
      hide Execute;
      var saved := store;
      r := Run(env, c);
      if r.Err? { store := saved; }
    }
  }

  /** The words from the floor up to `word` are gone and were complete. */
  ghost predicate Pruned(before: NonceState, eid: Eid, now: NonceState, word: nat, scanned: nat) {
    var lo := before.Floor(eid) / 64;
    && scanned == word - lo && scanned <= MAX_PRUNE_WORDS_PER_CALL
    && now == before.(words := DropWords(before, eid, lo, word))
    && FirstGap(before, eid, lo, lo + MAX_PRUNE_WORDS_PER_CALL) == FirstGap(before, eid, word, lo + MAX_PRUNE_WORDS_PER_CALL)
  }

  lemma PruneStarts(before: NonceState, eid: Eid)
    ensures Pruned(before, eid, before, before.Floor(eid) / 64, 0)
  {
  }

  lemma PruneNext(before: NonceState, eid: Eid, now: NonceState, word: nat, scanned: nat)
    requires Pruned(before, eid, now, word, scanned) && scanned < MAX_PRUNE_WORDS_PER_CALL && IsComplete(now, eid, word)
    ensures Pruned(before, eid, now.(words := now.words - {(eid, word)}), word + 1, scanned + 1)
  {
    var lo := before.Floor(eid) / 64;
    assert DropWords(before, eid, lo, word + 1) == DropWords(before, eid, lo, word) - {(eid, word)};
    hide DropWords;
    assert IsComplete(before, eid, word);
  }

  lemma PruneEnds(before: NonceState, eid: Eid, now: NonceState, word: nat, scanned: nat)
    requires Pruned(before, eid, now, word, scanned)
    requires scanned == MAX_PRUNE_WORDS_PER_CALL || !IsComplete(now, eid, word)
    ensures Nonces.PruneNonceWords(before, eid) ==
      if word * 64 >= U64_LIMIT then None
      else Some(now.(floors := if word * 64 > before.Floor(eid) then now.floors[eid := word * 64] else now.floors))
  {
    assert scanned < MAX_PRUNE_WORDS_PER_CALL ==> !IsComplete(before, eid, word);
  }

  /** Whether a word passes the shape check on `solver_evm`, byte by byte. */
  method IsEvmWord(raw: Word) returns (r: bool)
    ensures r <==> IsEvmAddress(raw)
  {
    for i := 0 to 12
      invariant forall j :: 0 <= j < i ==> raw[j] == 0
    {
      if raw[i] != 0 { return false; }
    }
    r := false;
    for i := 12 to 32
      invariant r <==> exists j :: 12 <= j < i && raw[j] != 0
    {
      r := r || raw[i] != 0;
    }
  }
}
