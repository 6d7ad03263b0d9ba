/**
 * What happened before, and what must happen next: a lock refunded through Stellar was
 * cancelled there at its deadline or later, and whatever message of a live lock reaches the
 * escrow ends it.
 */
module CrossChainCauses {
  import opened Prelude
  import opened Types
  import opened Messages
  import opened Settlement
  import opened SettlementSafety
  import opened SettlementGates
  import opened CrossChain
  import opened CrossChainSafety
  import Escrow

  // --- Cancelled at the deadline or later --------------------------------------------

  /** This step is a call that cancels the intent on Stellar, at the deadline or later. */
  ghost predicate CancelsInTime(dep: Deployment, sys: System, a: Action, h: Word, deadline: nat)
    requires Allowed(dep, a)
  {
    && a.OnStellar? && a.event.Invoked? && a.event.call.CancelExpired? && a.event.call.h == h
    && h !in sys.stellar.cancelled && h in Act(dep, sys, a).stellar.cancelled
    && a.event.env.now >= deadline
  }

  ghost predicate CancelledInTime(dep: Deployment, sys: System, run: seq<Action>, h: Word, deadline: nat)
    requires AllAllowed(dep, run)
  {
    run != []
    && (var m := |run| - 1;
        || CancelledInTime(dep, sys, run[..m], h, deadline)
        || CancelsInTime(dep, CrossChainSafety.Run(dep, sys, run[..m]), run[m], h, deadline))
  }

  /** The only call that sends a cancellation, and when it does. */
  lemma OnlyExpirySendsCancel(env: Env, s: State, c: Call, h: Word)
    requires Inv(s) && Execute(env, s, c).Ok? && HashInv(Execute(env, s, c).value, h)
    requires MessagesOf(s.outbox, h) == [] && h in Execute(env, s, c).value.cancelled
    ensures MessagesOf(Execute(env, s, c).value.outbox, h) != [] ==>
      c.CancelExpired? && c.h == h && h in s.intents && h !in s.cancelled && env.now >= s.intents[h].deadline
  {
    hide DecodeMessage, EncodeFillConfirmed, MessagesOf, DeliveriesOf, DeliverIntent, FillIntent, DispatchConfirmation, CancelExpiredIntent,
         ApplyInbound, AuthorizeInbound, ResolveDestAsset, PruneWords, ResetCap, MayConfirm, MayDeliver, MayFill, Sendable, RewardPayable,
         Mentions, ConfirmsFill, HashInv;
    match c
    case Deliver(solver, solverEvm, g, amount) => DeliverIff(env, s, solver, solverEvm, g, amount); MayFillKnown(env, s, solver, solverEvm, g, amount);
    case Fill(solver, solverEvm, g, amount, lzFee) => FillSendsNoCancel(env, s, solver, solverEvm, g, amount, lzFee, h);
    case Confirm(caller, g, lzFee) => ConfirmSendsNoCancel(env, s, caller, g, lzFee, h);
    case CancelExpired(caller, g, lzFee) => CancelSends(env, s, caller, g, lzFee, h);
    case Receive(origin, m) => InboundSendsNothing(env, s, origin, m);
    case ReceiveBytes(origin, bytes) =>
      DecodedShape(bytes);
      InboundSendsNothing(env, s, origin, ResolveMessage(env, s.cfg, DecodeMessage(bytes).value).value);
    case Prune(eid) => PruneIff(s, eid);
    case ResetWindow => ResetIff(env, s);
  }

  lemma MayFillKnown(env: Env, s: State, solver: Address, solverEvm: Word, g: Word, amount: i128)
    requires MayDeliver(env, s, solver, solverEvm, g, amount)
    ensures g in s.intents
  {
  }

  lemma InboundSendsNothing(env: Env, s: State, origin: Origin, m: LzMessage)
    requires ApplyInbound(env, s, origin, m).Ok?
    ensures ApplyInbound(env, s, origin, m).value.outbox == s.outbox
  {
    hide ValueCaps.EnforceValueCaps, Nonces.AcceptNonce;
  }

  /** Once confirmed an intent is not cancelled. */
  lemma ConfirmedIsNotCancelled(s: State, h: Word)
    requires HashInv(s, h) && h in s.confirmationSent
    ensures h !in s.cancelled
  {
    hide DeliveriesAgree, MessagesAgree;
  }

  lemma FillSendsNoCancel(env: Env, s: State, solver: Address, solverEvm: Word, g: Word, amount: i128, lzFee: i128, h: Word)
    requires Inv(s) && FillIntent(env, s, solver, solverEvm, g, amount, lzFee).Ok?
    requires var t := FillIntent(env, s, solver, solverEvm, g, amount, lzFee).value; HashInv(t, h) && h in t.cancelled
    ensures MessagesOf(FillIntent(env, s, solver, solverEvm, g, amount, lzFee).value.outbox, h) == MessagesOf(s.outbox, h)
  {
    hide FillIntent, MayDeliver, Sendable, EncodeFillConfirmed, ConfirmsFill, HashInv, MessagesOf, Mentions;
    InvAt(s, g);
    FillIff(env, s, solver, solverEvm, g, amount, lzFee);
    MayFillKnown(env, s, solver, solverEvm, g, amount);
    var t := FillIntent(env, s, solver, solverEvm, g, amount, lzFee).value;
    if h == g { ConfirmedIsNotCancelled(t, h); }
    HasPeer(env, s.cfg, s.intents[g].srcEid, EncodeFillConfirmed(g, solverEvm, amount, env.sequence), lzFee);
    var p := Packet(s.intents[g].srcEid, s.cfg.peers[s.intents[g].srcEid], EncodeFillConfirmed(g, solverEvm, amount, env.sequence));
    MessagesSnoc(s.outbox, p, h);
    PayloadsMention(g, solverEvm, amount, env.sequence, 0, p.dstEid, p.receiver, h);
  }

  lemma ConfirmSendsNoCancel(env: Env, s: State, caller: Address, g: Word, lzFee: i128, h: Word)
    requires Inv(s) && DispatchConfirmation(env, s, caller, g, lzFee).Ok?
    requires var t := DispatchConfirmation(env, s, caller, g, lzFee).value; HashInv(t, h) && h in t.cancelled
    ensures MessagesOf(DispatchConfirmation(env, s, caller, g, lzFee).value.outbox, h) == MessagesOf(s.outbox, h)
  {
    hide DispatchConfirmation, Sendable, EncodeFillConfirmed, ConfirmsFill, HashInv, MessagesOf, Mentions, RewardPayable;
    ConfirmIff(env, s, caller, g, lzFee);
    var t := DispatchConfirmation(env, s, caller, g, lzFee).value;
    InvAt(s, g);
    OwnHashRecorded(s, g);
    if h == g { ConfirmedIsNotCancelled(t, h); }
    var rec := s.intents[g];
    HasPeer(env, s.cfg, rec.srcEid, EncodeFillConfirmed(g, rec.solverEvm.value, rec.fillAmount, rec.fillLedger), lzFee);
    var p := Packet(rec.srcEid, s.cfg.peers[rec.srcEid], EncodeFillConfirmed(g, rec.solverEvm.value, rec.fillAmount, rec.fillLedger));
    MessagesSnoc(s.outbox, p, h);
    PayloadsMention(g, rec.solverEvm.value, rec.fillAmount, rec.fillLedger, 0, p.dstEid, p.receiver, h);
  }

  lemma OwnHashRecorded(s: State, g: Word)
    requires HashInv(s, g) && g in s.intents
    ensures s.intents[g].intentHash == g
  {
    hide DeliveriesAgree, MessagesAgree;
  }

  lemma CancelSends(env: Env, s: State, caller: Address, g: Word, lzFee: i128, h: Word)
    requires Inv(s) && CancelExpiredIntent(env, s, caller, g, lzFee).Ok?
    ensures g in s.intents && g !in s.cancelled && env.now >= s.intents[g].deadline
    ensures g != h ==> MessagesOf(CancelExpiredIntent(env, s, caller, g, lzFee).value.outbox, h) == MessagesOf(s.outbox, h)
  {
    hide CancelExpiredIntent, Sendable, HashInv, MessagesOf, Mentions, RewardPayable;
    CancelExpiredIff(env, s, caller, g, lzFee);
    InvAt(s, g);
    OwnHashRecorded(s, g);
    HasPeer(env, s.cfg, s.intents[g].srcEid, [1, 3] + g + [0], lzFee);
    var p := Packet(s.intents[g].srcEid, s.cfg.peers[s.intents[g].srcEid], [1, 3] + g + [0]);
    MessagesSnoc(s.outbox, p, h);
    if g != h { CancelMentions(p, g, h); }
  }

  lemma HasPeer(env: Env, cfg: Config, dstEid: Eid, payload: seq<byte>, lzFee: i128)
    requires Sendable(env, cfg, dstEid, payload, lzFee)
    ensures dstEid in cfg.peers
  {
  }

  lemma CancelMentions(p: Packet, g: Word, h: Word)
    requires p.payload == [1, 3] + g + [0]
    ensures Mentions(p, h) <==> g == h
  {
    assert p.payload[2..34] == g;
  }

  /** A cancelled intent whose message went out was cancelled in time. */
  ghost predicate SentInTime(dep: Deployment, sys: System, run: seq<Action>, h: Word)
    requires AllAllowed(dep, run)
  {
    var s := CrossChainSafety.Run(dep, sys, run).stellar;
    MessagesOf(s.outbox, h) != [] && h in s.cancelled ==>
      h in s.intents && CancelledInTime(dep, sys, run, h, s.intents[h].deadline)
  }

  /** What a step of the composed system does to Stellar is one event there, or nothing. */
  lemma ActIsEvent(dep: Deployment, sys: System, a: Action)
    requires Allowed(dep, a)
    ensures var t := Act(dep, sys, a).stellar;
      || t == sys.stellar
      || (a.OnStellar? && t == Step(sys.stellar, a.event))
      || (a.RelayFill? && a.h in sys.requests && FitsTheWire(sys.requests[a.h])
          && t == Step(sys.stellar, Invoked(a.env, RelayedCall(dep, sys.requests[a.h], a.nonce))))
  {
    hide Execute, RelayedCall, Allowed;
    if !a.RelayFill? && !a.OnStellar? { ElsewhereKeepsStellar(dep, sys, a); }
  }

  /** One more message about a cancelled intent is that of a cancellation in time. */
  lemma StepCancelsInTime(dep: Deployment, sys: System, a: Action, h: Word)
    requires SysInv(dep, sys) && Allowed(dep, a)
    requires var s, t := sys.stellar, Act(dep, sys, a).stellar;
      MessagesOf(s.outbox, h) == [] && MessagesOf(t.outbox, h) != [] && h in t.cancelled
    ensures h in sys.stellar.intents && CancelsInTime(dep, sys, a, h, sys.stellar.intents[h].deadline)
  {
    hide SysInv, Act, Allowed, HashInv, Execute, MessagesOf, RelayedCall, MovesForward;
    var s, t := sys.stellar, Act(dep, sys, a).stellar;
    ActMovesForward(dep, sys, a, h);
    SysInvOf(dep, sys);
    ActIsEvent(dep, sys, a);
    if a.OnStellar? && a.event.Invoked? && Execute(a.event.env, s, a.event.call).Ok? {
      OnlyExpirySendsCancel(a.event.env, s, a.event.call, h);
    } else if a.RelayFill? && a.h in sys.requests && FitsTheWire(sys.requests[a.h]) {
      var c := RelayedCall(dep, sys.requests[a.h], a.nonce);
      RelayedIsInbound(dep, sys.requests[a.h], a.nonce);
      if Execute(a.env, s, c).Ok? { OnlyExpirySendsCancel(a.env, s, c, h); }
    }
  }

  lemma SysInvOf(dep: Deployment, sys: System)
    requires SysInv(dep, sys)
    ensures Inv(sys.stellar)
  {
    hide Inv, LockInv, WireInv, CauseInv;
  }

  lemma TermsGoOn(s: State, t: State, h: Word)
    requires MovesForward(s, t, h)
    ensures h in s.intents ==> h in t.intents && t.intents[h].deadline == s.intents[h].deadline && t.intents[h].srcEid == s.intents[h].srcEid
    ensures s.outbox <= t.outbox && s.settled <= t.settled && s.confirmationSent <= t.confirmationSent && s.cancelled <= t.cancelled
  {
  }

  lemma AlreadyCancelled(s: State, t: State, h: Word)
    requires HashInv(s, h) && HashInv(t, h) && s.settled <= t.settled && s.confirmationSent <= t.confirmationSent
    requires MessagesOf(s.outbox, h) != [] && h in t.cancelled
    ensures h in s.cancelled && h in s.intents
  {
    hide DeliveriesAgree, MessagesOf;
  }

  lemma {:induction false} RunSentInTime(dep: Deployment, sys: System, run: seq<Action>, h: Word)
    requires Deployed(dep, sys) && AllAllowed(dep, run)
    ensures SentInTime(dep, sys, run, h)
  {
    hide SysInv, Act, Allowed, CancelsInTime, HashInv, MovesForward, MessagesOf, Deployed;
    DeployedInv(dep, sys);
    if run == [] {
      NothingCancelled(dep, sys);
    } else {
      var m := |run| - 1;
      var here, t := CrossChainSafety.Run(dep, sys, run[..m]), CrossChainSafety.Run(dep, sys, run);
      RunSentInTime(dep, sys, run[..m], h);
      RunKeepsInv(dep, sys, run[..m]);
      ActMovesForward(dep, here, run[m], h);
      TermsGoOn(here.stellar, t.stellar, h);
      SysInvOf(dep, here);
      InvAt(here.stellar, h);
      if MessagesOf(t.stellar.outbox, h) != [] && h in t.stellar.cancelled {
        if MessagesOf(here.stellar.outbox, h) != [] {
          AlreadyCancelled(here.stellar, t.stellar, h);
        } else {
          StepCancelsInTime(dep, here, run[m], h);
        }
      }
    }
  }

  lemma NothingCancelled(dep: Deployment, sys: System)
    requires Deployed(dep, sys)
    ensures sys.stellar.cancelled == {}
  {
    hide SaneConfig;
  }

  /** A lock refunded through Stellar has its cancellation on the way there, and its record under the escrow's eid. */
  ghost predicate RefundHasMessage(dep: Deployment, sys: System, h: Word) {
    h in sys.byCancel ==>
      MessagesOf(sys.stellar.outbox, h) != [] && h in sys.stellar.intents && sys.stellar.intents[h].srcEid == dep.evmEid
  }

  lemma {:induction false} MessagesGrow(a: seq<Packet>, b: seq<Packet>, h: Word)
    requires a <= b && MessagesOf(a, h) != []
    ensures MessagesOf(b, h) != []
  {
    if |a| < |b| {
      assert a <= b[..|b| - 1];
      MessagesGrow(a, b[..|b| - 1], h);
    } else {
      assert a == b;
    }
  }

  lemma CancelArrives(dep: Deployment, sys: System, j: nat, h: Word)
    requires HashInv(sys.stellar, h) && j < |sys.stellar.outbox| && sys.stellar.outbox[j].dstEid == dep.evmEid
    requires var payload := sys.stellar.outbox[j].payload; IsCancellation(payload) && payload[2..34] == h
    ensures MessagesOf(sys.stellar.outbox, h) != [] && h in sys.stellar.intents && sys.stellar.intents[h].srcEid == dep.evmEid
  {
    hide DeliveriesAgree, MessagesOf, BigEndian;
    InOutbox(sys.stellar.outbox, j, h);
  }

  lemma StepRefundHasMessage(dep: Deployment, sys: System, a: Action, h: Word)
    requires SysInv(dep, sys) && Allowed(dep, a) && RefundHasMessage(dep, sys, h)
    ensures RefundHasMessage(dep, Act(dep, sys, a), h)
  {
    hide SysInv, HashInv, MessagesOf, MovesForward, Execute, Allowed;
    var t := Act(dep, sys, a);
    ActMovesForward(dep, sys, a, h);
    TermsGoOn(sys.stellar, t.stellar, h);
    if h in t.byCancel {
      if h in sys.byCancel {
        MessagesGrow(sys.stellar.outbox, t.stellar.outbox, h);
      } else {
        SysInvAt(dep, sys, h);
        CancelArrives(dep, sys, a.j, h);
        ElsewhereKeepsStellar(dep, sys, a);
      }
    }
  }

  lemma {:induction false} RunRefundHasMessage(dep: Deployment, sys: System, run: seq<Action>, h: Word)
    requires Deployed(dep, sys) && AllAllowed(dep, run)
    ensures RefundHasMessage(dep, CrossChainSafety.Run(dep, sys, run), h)
  {
    hide SysInv, Act, Allowed;
    DeployedInv(dep, sys);
    if run != [] {
      var m := |run| - 1;
      RunRefundHasMessage(dep, sys, run[..m], h);
      RunKeepsInv(dep, sys, run[..m]);
      StepRefundHasMessage(dep, CrossChainSafety.Run(dep, sys, run[..m]), run[m], h);
    }
  }

  /** Every lock refunded because Stellar cancelled it was cancelled there no earlier than the lock's own deadline. */
  lemma {:induction false} RefundedOnlyAfterDeadline(dep: Deployment, sys: System, run: seq<Action>, h: Word)
    requires Deployed(dep, sys) && AllAllowed(dep, run)
    requires h in CrossChainSafety.Run(dep, sys, run).byCancel
    ensures var t := CrossChainSafety.Run(dep, sys, run); h in t.escrow.locks && CancelledInTime(dep, sys, run, h, t.escrow.locks[h].deadline)
  {
    hide SysInv, CrossChainSafety.Run, HashInv, CancelledInTime, MessagesOf;
    var t := CrossChainSafety.Run(dep, sys, run);
    DeployedInv(dep, sys);
    RunKeepsInv(dep, sys, run);
    RunSentInTime(dep, sys, run, h);
    RunRefundHasMessage(dep, sys, run, h);
    SysInvAt(dep, t, h);
    SameDeadline(dep, t, h);
  }

  lemma SameDeadline(dep: Deployment, sys: System, h: Word)
    requires LockInv(dep, sys, h) && WireInv(dep, sys, h) && CauseInv(dep, sys, h)
    requires h in sys.byCancel && h in sys.stellar.intents && sys.stellar.intents[h].srcEid == dep.evmEid
    ensures h in sys.escrow.locks && h in sys.stellar.cancelled && sys.stellar.intents[h].deadline == sys.escrow.locks[h].deadline
  {
    hide Escrow.PayoutsOf, AssetOf;
  }

  // --- A message that arrives ends its lock --------------------------------------------

  /** Whatever the contract sent about a live lock, on arriving releases or refunds it; and which tells the marker. */
  lemma {:induction false} ArrivalEndsLock(dep: Deployment, sys: System, run: seq<Action>, h: Word, j: nat)
    requires Deployed(dep, sys) && AllAllowed(dep, run)
    requires var t := CrossChainSafety.Run(dep, sys, run);
      && h in t.escrow.locks && !Escrow.IsFinal(t.escrow, h)
      && j < |t.stellar.outbox| && t.stellar.outbox[j].dstEid == dep.evmEid && t.stellar.outbox[j].receiver == dep.escrow
      && Mentions(t.stellar.outbox[j], h)
    ensures var t := CrossChainSafety.Run(dep, sys, run); var u := Act(dep, t, RelayBack(j)).escrow;
      if h in t.stellar.confirmationSent then h in u.released else h in t.stellar.cancelled && h in u.refunded
  {
    hide SysInv, CrossChainSafety.Run, HashInv, WireInv, LockInv, CauseInv, BooksBalance, Escrow.PayoutsOf, Arrive, MessagesOf,
         IsConfirmation, IsCancellation, Mentions;
    var t := CrossChainSafety.Run(dep, sys, run);
    DeployedInv(dep, sys);
    RunKeepsInv(dep, sys, run);
    SysInvAt(dep, t, h);
    BooksOf(dep, t);
    LiveLockIsCovered(dep, t, h);
    SentKind(dep, t, j, h);
    var payload := t.stellar.outbox[j].payload;
    if h in t.stellar.confirmationSent { ConfirmationPays(dep, t, payload, h); } else { CancellationPays(dep, t, payload, h); }
  }

  lemma SentKind(dep: Deployment, sys: System, j: nat, h: Word)
    requires HashInv(sys.stellar, h) && WireInv(dep, sys, h) && h in sys.escrow.locks
    requires j < |sys.stellar.outbox| && sys.stellar.outbox[j].dstEid == dep.evmEid && Mentions(sys.stellar.outbox[j], h)
    ensures var payload := sys.stellar.outbox[j].payload;
      if h in sys.stellar.confirmationSent then IsConfirmation(payload) && payload[2..34] == h
      else h in sys.stellar.cancelled && IsCancellation(payload) && payload[2..34] == h
  {
    hide DeliveriesAgree, MessagesOf, BigEndian, AssetOf;
    InOutbox(sys.stellar.outbox, j, h);
    var payload := sys.stellar.outbox[j].payload;
    if h in sys.stellar.confirmationSent {
      var rec := sys.stellar.intents[h];
      assert payload == ConfirmationPayload(rec, rec.solverEvm.value) && rec.srcEid == dep.evmEid;
      assert rec.solverEvm.value == SolverAsWord(sys.requests[h].solver);
      assert payload[34..66] == rec.solverEvm.value;
      assert payload[34..46] == payload[34..66][..12];
    }
  }

  lemma ConfirmationPays(dep: Deployment, sys: System, payload: seq<byte>, h: Word)
    requires IsConfirmation(payload) && payload[2..34] == h && h in sys.escrow.locks && !Escrow.IsFinal(sys.escrow, h)
    requires Escrow.BalanceOf(sys.escrow.balances, sys.escrow.holder) >= sys.escrow.locks[h].amount
    ensures h in Arrive(dep, sys, payload).escrow.released
  {
  }

  lemma CancellationPays(dep: Deployment, sys: System, payload: seq<byte>, h: Word)
    requires IsCancellation(payload) && payload[2..34] == h && h in sys.escrow.locks && !Escrow.IsFinal(sys.escrow, h)
    requires Escrow.BalanceOf(sys.escrow.balances, sys.escrow.holder) >= sys.escrow.locks[h].amount
    ensures h in Arrive(dep, sys, payload).escrow.refunded
  {
  }
}
