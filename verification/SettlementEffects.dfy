/**
 * What a successful settlement call does to balances and reputation: exactly the transfer
 * it records, and a keeper reward only where one is due.
 */
module SettlementEffects {
  import opened Prelude
  import opened Types
  import opened Messages
  import opened Settlement
  import opened SettlementSafety

  /** What a transfer adds to one account; negative for the sender, nothing if it sends to itself. */
  function Moved(token: Address, from: Address, to: Address, amount: int, t: Address, who: Address): int {
    if t != token then 0 else (if who == to then amount else 0) - (if who == from then amount else 0)
  }

  /** A transfer moves its amount from one account to the other, and nothing else. */
  lemma TransferMoves(env: Env, b: Balances, token: Address, from: Address, to: Address, amount: i128, t: Address, who: Address)
    requires Transfer(env, b, token, from, to, amount).Some?
    ensures BalanceOf(Transfer(env, b, token, from, to, amount).value, t, who) == BalanceOf(b, t, who) + Moved(token, from, to, amount, t, who)
    ensures 0 <= amount <= BalanceOf(b, token, from)
  {
  }

  lemma RewardMoves(env: Env, s: State, to: Address, reward: i128, due: bool, t: Address, who: Address)
    requires PayReward(env, s, to, reward, due).Ok?
    ensures var paid := if reward > 0 && due && s.cfg.nativeToken.Some? then Moved(s.cfg.nativeToken.value, s.self, to, reward, t, who) else 0;
      BalanceOf(PayReward(env, s, to, reward, due).value.balances, t, who) == BalanceOf(s.balances, t, who) + paid
  {
    hide Moved;
    if reward > 0 && due && s.cfg.nativeToken.Some? {
      TransferMoves(env, s.balances, s.cfg.nativeToken.value, s.self, to, reward, t, who);
    }
  }

  lemma SettleMoves(env: Env, s: State, h: Word, rec: IntentRecord, solver: Address, amount: i128, t: Address, who: Address)
    requires SettleDelivery(env, s, h, rec, solver, amount).Ok?
    ensures BalanceOf(SettleDelivery(env, s, h, rec, solver, amount).value.balances, t, who)
         == BalanceOf(s.balances, t, who) + Moved(rec.destAsset, solver, rec.recipient, amount, t, who)
  {
    TransferMoves(env, s.balances, rec.destAsset, solver, rec.recipient, amount, t, who);
  }

  /** A delivery costs the solver, and gives the recipient, the filled amount of the intent's asset. */
  lemma DeliveryMovesFunds(env: Env, s: State, solver: Address, solverEvm: Word, h: Word, amount: i128, t: Address, who: Address)
    requires DeliverIntent(env, s, solver, solverEvm, h, amount).Ok?
    ensures h in s.intents && amount >= s.intents[h].minDestAmount
    ensures BalanceOf(DeliverIntent(env, s, solver, solverEvm, h, amount).value.balances, t, who)
         == BalanceOf(s.balances, t, who) + Moved(s.intents[h].destAsset, solver, s.intents[h].recipient, amount, t, who)
  {
    hide ValidateFill, SettleDelivery, Moved;
    ValidFill(env, s, solver, solverEvm, h, amount);
    SettleMoves(env, s, h, FilledRecord(env, s.intents[h], solver, solverEvm, amount), solver, amount, t, who);
  }

  /** So does a fill, which pays no keeper. */
  lemma FillMovesFunds(env: Env, s: State, solver: Address, solverEvm: Word, h: Word, amount: i128, lzFee: i128, t: Address, who: Address)
    requires FillIntent(env, s, solver, solverEvm, h, amount, lzFee).Ok?
    ensures h in s.intents && amount >= s.intents[h].minDestAmount
    ensures BalanceOf(FillIntent(env, s, solver, solverEvm, h, amount, lzFee).value.balances, t, who)
         == BalanceOf(s.balances, t, who) + Moved(s.intents[h].destAsset, solver, s.intents[h].recipient, amount, t, who)
  {
    hide ValidateFill, SettleDelivery, Moved, EncodeFillConfirmed, UpdateReputation;
    ValidFill(env, s, solver, solverEvm, h, amount);
    SettleMoves(env, s, h, FilledRecord(env, s.intents[h], solver, solverEvm, amount), solver, amount, t, who);
  }

  /** A fill confirmed by somebody else, long enough after it was made. */
  predicate Stalled(env: Env, rec: IntentRecord, caller: Address) {
    rec.solver != Some(caller) && env.sequence >= rec.fillLedger + DISPATCH_REWARD_GRACE_LEDGERS
  }

  /** A confirmation moves no asset of the intent; it pays its caller exactly when the fill had stalled. */
  lemma ConfirmationPaysStalledOnly(env: Env, s: State, caller: Address, h: Word, lzFee: i128, t: Address, who: Address)
    requires DispatchConfirmation(env, s, caller, h, lzFee).Ok?
    ensures h in s.intents
    ensures var reward := s.cfg.dispatchKeeperReward;
      var paid := if Stalled(env, s.intents[h], caller) && reward > 0 && s.cfg.nativeToken.Some?
                  then Moved(s.cfg.nativeToken.value, s.self, caller, reward, t, who) else 0;
      BalanceOf(DispatchConfirmation(env, s, caller, h, lzFee).value.balances, t, who) == BalanceOf(s.balances, t, who) + paid
  {
    hide PayReward, Moved, EncodeFillConfirmed, UpdateReputation;
    var rec := s.intents[h];
    var sent := Dispatch(env, s, rec.srcEid, ConfirmationPayload(rec, rec.solverEvm.value), lzFee).value;
    var s2 := MarkConfirmed(env, sent, h, rec, rec.solver.value);
    var due := caller != rec.solver.value && SatSub(env.sequence, rec.fillLedger) >= DISPATCH_REWARD_GRACE_LEDGERS;
    RewardMoves(env, s2, caller, s2.cfg.dispatchKeeperReward, due, t, who);
  }

  /** A cancellation pays its keeper and moves nothing else. */
  lemma CancellationPaysKeeper(env: Env, s: State, caller: Address, h: Word, lzFee: i128, t: Address, who: Address)
    requires HashInv(s, h) && CancelExpiredIntent(env, s, caller, h, lzFee).Ok?
    ensures var reward := s.cfg.keeperReward;
      var paid := if reward > 0 && s.cfg.nativeToken.Some? then Moved(s.cfg.nativeToken.value, s.self, caller, reward, t, who) else 0;
      BalanceOf(CancelExpiredIntent(env, s, caller, h, lzFee).value.balances, t, who) == BalanceOf(s.balances, t, who) + paid
  {
    hide PayReward, Moved, EncodeCancel, HashInv, CancelExpiredIntent;
    OpenForCancel(env, s, caller, h, lzFee);
    var to := s.cfg.peers[s.intents[h].srcEid];
    var sent := MarkCancelled(s, h).(outbox := s.outbox + [Packet(s.intents[h].srcEid, to, EncodeCancel(h, CANCEL_REASON_EXPIRED))]);
    RewardMoves(env, sent, caller, s.cfg.keeperReward, true, t, who);
  }

  /** A solver's record; one who never filled starts from nothing. */
  function ReputationOf(reputation: map<Address, Reputation>, solver: Address): Reputation {
    if solver in reputation then reputation[solver] else Reputation(0, 0, 0)
  }

  /**
   * One more fill for this solver, known or new, and for no other; the average becomes nine
   * parts of what it was and one of the new latency, and a first latency is taken as it is.
   */
  lemma ReputationMoves(reputation: map<Address, Reputation>, solver: Address, latency: nat, other: Address)
    ensures var before, after := ReputationOf(reputation, solver), UpdateReputation(reputation, solver, latency);
      && after.Keys == reputation.Keys + {solver}
      && (other != solver ==> ReputationOf(after, other) == ReputationOf(reputation, other))
      && after[solver].fillCount == Min(before.fillCount + 1, U64_LIMIT - 1)
      && after[solver].successCount == Min(before.successCount + 1, U64_LIMIT - 1)
      && (if before.ewmaLatency == 0 then after[solver].ewmaLatency == latency
          else && 10 * after[solver].ewmaLatency <= 9 * before.ewmaLatency + latency < 10 * after[solver].ewmaLatency + 10
               && Min(before.ewmaLatency, latency) <= after[solver].ewmaLatency <= Max(before.ewmaLatency, latency))
  {
  }
}
