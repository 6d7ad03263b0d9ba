/** `fill_intent` against the two-call path it is a convenience for. */
module FillEquivalence {
  import opened Prelude
  import opened Types
  import opened Messages
  import opened Settlement
  import opened SettlementSafety

  /** `deliver_intent`, then `dispatch_confirmation` by the same solver in the same ledger. */
  function DeliverThenConfirm(env: Env, s: State, solver: Address, solverEvm: Word, h: Word, amount: i128, lzFee: i128): Result<State, Error> {
    var s1 :- DeliverIntent(env, s, solver, solverEvm, h, amount);
    DispatchConfirmation(env, s1, solver, h, lzFee)
  }

  /** A fill that was in time to be made is in time to be confirmed. */
  lemma FilledInTime(now: u64, deadline: u64)
    requires SatAdd64(now, MIN_DISPATCH_WINDOW) <= deadline
    ensures now <= SatAdd64(deadline, MIN_DISPATCH_WINDOW)
  {
  }

  lemma ConfirmAfterDeliver(env: Env, s: State, b: Balances, solver: Address, solverEvm: Word, h: Word, amount: i128, lzFee: i128)
    requires HashInv(s, h) && ValidateFill(env, s, solver, solverEvm, h, amount).Ok? && solver in env.auth
    ensures h in s.intents
    ensures var rec := FilledRecord(env, s.intents[h], solver, solverEvm, amount);
      var s0 := Filled1(env, s, b, solver, solverEvm, h, amount).(intents := s.intents);
      DispatchConfirmation(env, Filled1(env, s, b, solver, solverEvm, h, amount), solver, h, lzFee) ==
        match Dispatch(env, s0, rec.srcEid, ConfirmationPayload(rec, solverEvm), lzFee)
        case Ok(sent) => Ok(MarkConfirmed(env, sent, h, rec, solver))
        case Err(e) => Err(e)
  {
    hide IsEvmAddress, EncodeFillConfirmed, UpdateReputation, DeliveriesAgree, MessagesAgree, SatAdd64;
    var rec := s.intents[h];
    FilledInTime(env.now, rec.deadline);
    var s1 := Filled1(env, s, b, solver, solverEvm, h, amount);
    assert h !in s1.confirmationSent;
    assert s1.intents[h] == FilledRecord(env, rec, solver, solverEvm, amount);
    SameRecordWrites(env, s, b, solver, solverEvm, h, amount);
  }

  /** One call or two: the same error, or the same records, markers, balances, messages and reputation. */
  lemma FillIsDeliverThenConfirm(env: Env, s: State, solver: Address, solverEvm: Word, h: Word, amount: i128, lzFee: i128)
    requires HashInv(s, h)
    ensures FillIntent(env, s, solver, solverEvm, h, amount, lzFee) == DeliverThenConfirm(env, s, solver, solverEvm, h, amount, lzFee)
  {
    hide HashInv, MarkConfirmed, DispatchConfirmation, Transfer, EncodeFillConfirmed, Dispatch;
    if solver in env.auth && !s.cfg.paused && ValidateFill(env, s, solver, solverEvm, h, amount).Ok? {
      ValidFill(env, s, solver, solverEvm, h, amount);
      hide ValidateFill;
      var rec := s.intents[h];
      var moved := Transfer(env, s.balances, rec.destAsset, solver, rec.recipient, amount);
      if moved.Some? {
        ConfirmAfterDeliver(env, s, moved.value, solver, solverEvm, h, amount, lzFee);
      }
    }
  }

  /** From every reachable state. */
  lemma {:induction false} FillEquivalentAlways(s: State, es: seq<Event>, env: Env, solver: Address, solverEvm: Word, h: Word, amount: i128, lzFee: i128)
    requires Initial(s) && SaneRun(es)
    ensures var t := Run(s, es);
      FillIntent(env, t, solver, solverEvm, h, amount, lzFee) == DeliverThenConfirm(env, t, solver, solverEvm, h, amount, lzFee)
  {
    ReachableInv(s, es);
    InvAt(Run(s, es), h);
    FillIsDeliverThenConfirm(env, Run(s, es), solver, solverEvm, h, amount, lzFee);
  }
}
