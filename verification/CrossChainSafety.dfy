/**
 * The promise to the user, over every run of the composed system: each lock stays live,
 * is refunded in full, or is released once, and released means delivered.
 */
module CrossChainSafety {
  import opened Prelude
  import opened Types
  import opened Messages
  import opened Settlement
  import opened SettlementSafety
  import opened CrossChain
  import Escrow
  import ValueCaps

  // --- The invariant ----------------------------------------------------------------

  function ExpectedPayouts(e: Escrow.EscrowState, h: Word): seq<Escrow.Payout> {
    if h !in e.locks then []
    else if h in e.released then [Escrow.Payout(h, e.locks[h].solver, e.locks[h].amount)]
    else if h in e.refunded then [Escrow.Payout(h, e.locks[h].user, e.locks[h].amount)]
    else []
  }

  /** Each lock's fate, and exactly the payouts that go with it. */
  ghost predicate LockInv(dep: Deployment, sys: System, h: Word) {
    var e := sys.escrow;
    && !(h in e.released && h in e.refunded)
    && (Escrow.IsFinal(e, h) ==> h in e.locks)
    && (h in e.locks ==> e.locks[h].user != dep.holder)
    && (h in e.refunded <==> h in sys.byCancel || h in sys.byTimeout)
    && !(h in sys.byCancel && h in sys.byTimeout)
    && (h in sys.byTimeout ==> h in e.locks && sys.byTimeout[h] >= e.locks[h].deadline + dep.grace)
    && Escrow.PayoutsOf(e.payouts, h) == ExpectedPayouts(e, h)
  }

  /** A request on the wire is a lock's; a record under the escrow's eid is a request's. */
  ghost predicate WireInv(dep: Deployment, sys: System, h: Word) {
    && (h in sys.requests ==>
          var q := sys.requests[h];
          && FitsTheWire(q) && q.intentHash == h && h in sys.escrow.locks
          && sys.escrow.locks[h].solver == q.solver && sys.escrow.locks[h].deadline == q.deadline)
    && (h in sys.stellar.intents && sys.stellar.intents[h].srcEid == dep.evmEid ==>
          h in sys.requests && RecordOf(dep, sys.requests[h], sys.stellar.intents[h]))
  }

  /** What the escrow did rests on what the contract had done. */
  ghost predicate CauseInv(dep: Deployment, sys: System, h: Word) {
    && (h in sys.escrow.released ==>
          h in sys.stellar.confirmationSent && h in sys.stellar.intents && sys.stellar.intents[h].srcEid == dep.evmEid)
    && (h in sys.byCancel ==> h in sys.stellar.cancelled)
  }

  ghost predicate BooksBalance(dep: Deployment, sys: System) {
    var e := sys.escrow;
    && e.holder == dep.holder && Escrow.InOrder(e)
    && Escrow.BalanceOf(e.balances, e.holder) == Escrow.LiveSum(e, e.order) + sys.gifts
  }

  ghost predicate SysInv(dep: Deployment, sys: System) {
    && Inv(sys.stellar) && SaneConfig(dep, sys.stellar.cfg) && BooksBalance(dep, sys)
    && forall h: Word :: LockInv(dep, sys, h) && WireInv(dep, sys, h) && CauseInv(dep, sys, h)
  }

  lemma SysInvAt(dep: Deployment, sys: System, h: Word)
    requires SysInv(dep, sys)
    ensures LockInv(dep, sys, h) && WireInv(dep, sys, h) && CauseInv(dep, sys, h) && HashInv(sys.stellar, h)
  {
    hide LockInv, WireInv, CauseInv, HashInv, Inv;
    InvAt(sys.stellar, h);
  }

  // --- Steps on Stellar ---------------------------------------------------------------

  lemma TermsKept(dep: Deployment, q: FillRequest, a: IntentRecord, b: IntentRecord)
    requires RecordOf(dep, q, a) && SameTerms(a, b) && (FullyReserved(a) ==> b.solverEvm == a.solverEvm)
    ensures RecordOf(dep, q, b)
  {
    hide AssetOf;
  }

  /** A new record under the escrow's eid is one of its requests. */
  ghost predicate HonestRecord(dep: Deployment, sys: System, t: State, h: Word) {
    h !in sys.stellar.intents && h in t.intents && t.intents[h].srcEid == dep.evmEid ==>
      h in sys.requests && RecordOf(dep, sys.requests[h], t.intents[h])
  }

  lemma StellarHash(dep: Deployment, sys: System, t: State, h: Word)
    requires LockInv(dep, sys, h) && WireInv(dep, sys, h) && CauseInv(dep, sys, h)
    requires MovesForward(sys.stellar, t, h) && HonestRecord(dep, sys, t, h)
    ensures var sys' := sys.(stellar := t); LockInv(dep, sys', h) && WireInv(dep, sys', h) && CauseInv(dep, sys', h)
  {
    hide SameTerms, RecordOf, FullyReserved, Status, StatusMoves;
    if h in sys.stellar.intents {
      assert t.intents[h].srcEid == sys.stellar.intents[h].srcEid by { assert SameTerms(sys.stellar.intents[h], t.intents[h]); SameEid(sys.stellar.intents[h], t.intents[h]); }
      if sys.stellar.intents[h].srcEid == dep.evmEid {
        TermsKept(dep, sys.requests[h], sys.stellar.intents[h], t.intents[h]);
      }
    }
  }

  lemma SameEid(a: IntentRecord, b: IntentRecord)
    requires SameTerms(a, b)
    ensures a.srcEid == b.srcEid
  {
  }

  lemma StellarStep(dep: Deployment, sys: System, t: State)
    requires SysInv(dep, sys) && SaneConfig(dep, t.cfg)
    requires forall h: Word :: Kept(sys.stellar, t, h) && HonestRecord(dep, sys, t, h)
    ensures SysInv(dep, sys.(stellar := t))
  {
    forall h: Word ensures HashInv(t, h) && LockInv(dep, sys.(stellar := t), h) && WireInv(dep, sys.(stellar := t), h) && CauseInv(dep, sys.(stellar := t), h) {
      assert Kept(sys.stellar, t, h) && HonestRecord(dep, sys, t, h);
      hide HashInv, LockInv, WireInv, CauseInv, MovesForward, HonestRecord;
      SysInvAt(dep, sys, h);
      StellarHash(dep, sys, t, h);
    }
    hide HashInv, LockInv, WireInv, CauseInv, Kept;
  }

  lemma InboundKeepsConfig(env: Env, s: State, origin: Origin, m: LzMessage)
    requires ApplyInbound(env, s, origin, m).Ok?
    ensures ApplyInbound(env, s, origin, m).value.cfg == s.cfg
  {
    hide ValueCaps.EnforceValueCaps;
  }

  lemma ConfigKept(env: Env, s: State, c: Call)
    requires Execute(env, s, c).Ok?
    ensures Execute(env, s, c).value.cfg == s.cfg
  {
    hide DecodeMessage, EncodeFillConfirmed, EncodeCancel, ValueCaps.ResetRollingWindowCap, ValidateFill, ApplyInbound, Transfer;
    match c
    case Receive(origin, m) => InboundKeepsConfig(env, s, origin, m);
    case ReceiveBytes(origin, bytes) =>
      DecodedShape(bytes);
      InboundKeepsConfig(env, s, origin, ResolveMessage(env, s.cfg, DecodeMessage(bytes).value).value);
    case _ =>
  }

  lemma UnlessForged(dep: Deployment, sys: System, env: Env, c: Call, h: Word)
    requires SaneConfig(dep, sys.stellar.cfg) && Execute(env, sys.stellar, c).Ok?
    requires IsInbound(c) ==> !(c.origin.srcEid == dep.evmEid && c.origin.sender == dep.escrow)
    ensures HonestRecord(dep, sys, Execute(env, sys.stellar, c).value, h)
  {
    hide Execute, RecordOf;
    var t := Execute(env, sys.stellar, c).value;
    if h !in sys.stellar.intents && h in t.intents {
      OnlyInboundRegisters(env, sys.stellar, c, h);
    }
  }

  lemma RelayedHonest(dep: Deployment, sys: System, env: Env, g: Word, nonce: u64, h: Word)
    requires SaneEnv(dep, env) && SaneConfig(dep, sys.stellar.cfg) && g in sys.requests && FitsTheWire(sys.requests[g])
    requires WireInv(dep, sys, g)
    requires Execute(env, sys.stellar, RelayedCall(dep, sys.requests[g], nonce)).Ok?
    ensures HonestRecord(dep, sys, Execute(env, sys.stellar, RelayedCall(dep, sys.requests[g], nonce)).value, h)
  {
    hide Execute, RecordOf, RelayedCall;
    var c := RelayedCall(dep, sys.requests[g], nonce);
    if h !in sys.stellar.intents && h in Execute(env, sys.stellar, c).value.intents {
      RelayedRecord(dep, env, sys.stellar, sys.requests[g], nonce, h);
    }
  }

  lemma CallOnStellar(dep: Deployment, sys: System, env: Env, c: Call)
    requires SysInv(dep, sys) && SaneClock(env)
    requires Execute(env, sys.stellar, c).Ok? ==>
      forall h: Word :: HonestRecord(dep, sys, Execute(env, sys.stellar, c).value, h)
    ensures SysInv(dep, sys.(stellar := Commit(env, sys.stellar, c)))
  {
    if Execute(env, sys.stellar, c).Ok? {
      var t := Execute(env, sys.stellar, c).value;
      ConfigKept(env, sys.stellar, c);
      forall h: Word ensures Kept(sys.stellar, t, h) {
        ExecuteKept(env, sys.stellar, c, h);
      }
      hide HonestRecord, Kept, SysInv, Execute;
      StellarStep(dep, sys, t);
    }
  }

  /** Settings and balances that change by themselves. */
  lemma OtherOnStellar(dep: Deployment, sys: System, t: State)
    requires SysInv(dep, sys) && SaneConfig(dep, t.cfg) && SameIntents(sys.stellar, t)
    ensures SysInv(dep, sys.(stellar := t))
  {
    forall h: Word ensures Kept(sys.stellar, t, h) && HonestRecord(dep, sys, t, h) {
      InvAt(sys.stellar, h);
      SameIntentsKept(sys.stellar, t, h);
    }
    hide HonestRecord, Kept, SysInv;
    StellarStep(dep, sys, t);
  }

  // --- Steps at the escrow ------------------------------------------------------------

  /** Every lock but `h` is as it was. */
  ghost predicate OnlyLock(sys: System, t: System, h: Word) {
    && t.escrow.holder == sys.escrow.holder && t.stellar == sys.stellar
    && forall g: Word :: g != h ==> SameStory(sys, t, g)
  }

  predicate SameStory(sys: System, t: System, g: Word) {
    && (g in t.escrow.locks <==> g in sys.escrow.locks)
    && (g in sys.escrow.locks ==> t.escrow.locks[g] == sys.escrow.locks[g])
    && (g in t.escrow.released <==> g in sys.escrow.released) && (g in t.escrow.refunded <==> g in sys.escrow.refunded)
    && (g in t.byCancel <==> g in sys.byCancel) && (g in t.byTimeout <==> g in sys.byTimeout)
    && (g in sys.byTimeout ==> t.byTimeout[g] == sys.byTimeout[g])
    && Escrow.PayoutsOf(t.escrow.payouts, g) == Escrow.PayoutsOf(sys.escrow.payouts, g)
    && (g in t.requests <==> g in sys.requests) && (g in sys.requests ==> t.requests[g] == sys.requests[g])
  }

  lemma OthersKept(dep: Deployment, sys: System, t: System, g: Word)
    requires SameStory(sys, t, g) && t.stellar == sys.stellar
    requires LockInv(dep, sys, g) && WireInv(dep, sys, g) && CauseInv(dep, sys, g)
    ensures LockInv(dep, t, g) && WireInv(dep, t, g) && CauseInv(dep, t, g)
  {
    hide RecordOf, Escrow.PayoutsOf;
  }

  lemma EscrowStep(dep: Deployment, sys: System, t: System, h: Word)
    requires SysInv(dep, sys) && OnlyLock(sys, t, h) && BooksBalance(dep, t)
    requires LockInv(dep, t, h) && WireInv(dep, t, h) && CauseInv(dep, t, h)
    ensures SysInv(dep, t)
  {
    forall g: Word ensures LockInv(dep, t, g) && WireInv(dep, t, g) && CauseInv(dep, t, g) {
      if g != h {
        assert SameStory(sys, t, g);
        hide LockInv, WireInv, CauseInv, SameStory;
        SysInvAt(dep, sys, g);
        OthersKept(dep, sys, t, g);
      }
    }
    hide LockInv, WireInv, CauseInv, BooksBalance;
  }

  /** Paying out a lock takes the same amount off the balance and off what is owed. */
  lemma PayKeepsBooks(dep: Deployment, sys: System, t: System, h: Word, to: Escrow.Holder)
    requires BooksBalance(dep, sys) && h in sys.escrow.locks && !Escrow.IsFinal(sys.escrow, h)
    requires var amount := sys.escrow.locks[h].amount; var paid := Escrow.Pay(sys.escrow, h, to, amount);
      && paid.Ok? && t.escrow.balances == paid.value.balances && t.gifts == sys.gifts + GiftIf(dep, to, amount)
    requires t.escrow.holder == sys.escrow.holder && t.escrow.locks == sys.escrow.locks && t.escrow.order == sys.escrow.order
    requires forall g: Word :: Escrow.IsFinal(t.escrow, g) <==> Escrow.IsFinal(sys.escrow, g) || g == h
    ensures BooksBalance(dep, t)
  {
    Escrow.LiveSumFinalize(sys.escrow, t.escrow, t.escrow.order, h);
  }

  /** A live lock is always covered. */
  lemma LiveLockIsCovered(dep: Deployment, sys: System, h: Word)
    requires BooksBalance(dep, sys) && h in sys.escrow.locks && !Escrow.IsFinal(sys.escrow, h)
    ensures Escrow.BalanceOf(sys.escrow.balances, sys.escrow.holder) >= sys.escrow.locks[h].amount
  {
    Escrow.LiveSumCovers(sys.escrow, sys.escrow.order, h);
  }

  lemma {:induction false} InOutbox(outbox: seq<Packet>, j: nat, h: Word)
    requires j < |outbox| && Mentions(outbox[j], h)
    ensures (outbox[j].dstEid, outbox[j].payload) in MessagesOf(outbox, h)
  {
    var m := |outbox| - 1;
    if j < m { InOutbox(outbox[..m], j, h); }
  }

  /** A confirmation that reaches the escrow comes from a delivered fill and names the locking solver. */
  lemma ConfirmationMeans(dep: Deployment, sys: System, j: nat, h: Word)
    requires HashInv(sys.stellar, h) && WireInv(dep, sys, h) && h in sys.escrow.locks
    requires j < |sys.stellar.outbox| && sys.stellar.outbox[j].dstEid == dep.evmEid
    requires var payload := sys.stellar.outbox[j].payload; IsConfirmation(payload) && payload[2..34] == h
    ensures h in sys.stellar.confirmationSent && h in sys.stellar.intents && sys.stellar.intents[h].srcEid == dep.evmEid
    ensures sys.stellar.outbox[j].payload[46..66] == sys.escrow.locks[h].solver
  {
    hide DeliveriesAgree, MessagesOf, BigEndian, AssetOf, Escrow.LiveSum;
    InOutbox(sys.stellar.outbox, j, h);
    assert h in sys.stellar.confirmationSent;
    var rec := sys.stellar.intents[h];
    var payload := sys.stellar.outbox[j].payload;
    assert payload == ConfirmationPayload(rec, rec.solverEvm.value) && rec.srcEid == dep.evmEid;
    assert rec.solverEvm.value == SolverAsWord(sys.requests[h].solver);
    assert payload[34..66] == rec.solverEvm.value;
    assert payload[46..66] == payload[34..66][12..];
  }

  lemma CancellationMeans(dep: Deployment, sys: System, j: nat, h: Word)
    requires HashInv(sys.stellar, h)
    requires j < |sys.stellar.outbox|
    requires var payload := sys.stellar.outbox[j].payload; IsCancellation(payload) && payload[2..34] == h
    ensures h in sys.stellar.cancelled
  {
    hide DeliveriesAgree, MessagesOf, BigEndian;
    InOutbox(sys.stellar.outbox, j, h);
  }

  lemma ReleasePays(dep: Deployment, sys: System, t: System, h: Word)
    requires BooksBalance(dep, sys) && h in sys.escrow.locks && !Escrow.IsFinal(sys.escrow, h)
    requires Released(dep, sys, t, h) && t.gifts == sys.gifts + GiftIf(dep, sys.escrow.locks[h].solver, sys.escrow.locks[h].amount)
    ensures BooksBalance(dep, t)
  {
    hide Escrow.LiveSum, Escrow.InOrder;
    PayKeepsBooks(dep, sys, t, h, sys.escrow.locks[h].solver);
  }

  lemma ReleaseCause(dep: Deployment, sys: System, t: System, h: Word)
    requires h in sys.escrow.locks && Released(dep, sys, t, h) && WireInv(dep, sys, h) && CauseInv(dep, sys, h)
    requires h in sys.stellar.confirmationSent && h in sys.stellar.intents && sys.stellar.intents[h].srcEid == dep.evmEid
    ensures WireInv(dep, t, h) && CauseInv(dep, t, h)
  {
    hide RecordOf, FitsTheWire;
  }

  lemma ReleaseKeeps(dep: Deployment, sys: System, t: System, h: Word)
    requires SysInv(dep, sys) && h in sys.escrow.locks && !Escrow.IsFinal(sys.escrow, h)
    requires Released(dep, sys, t, h) && t.gifts == sys.gifts + GiftIf(dep, sys.escrow.locks[h].solver, sys.escrow.locks[h].amount)
    requires h in sys.stellar.confirmationSent && h in sys.stellar.intents && sys.stellar.intents[h].srcEid == dep.evmEid
    ensures SysInv(dep, t)
  {
    hide *;
    BooksOf(dep, sys);
    SysInvAt(dep, sys, h);
    ReleasePays(dep, sys, t, h);
    ReleasedSelf(dep, sys, t, h);
    ReleasedOthers(dep, sys, t, h);
    ReleaseCause(dep, sys, t, h);
    EscrowStep(dep, sys, t, h);
  }

  lemma ReleaseStep(dep: Deployment, sys: System, j: nat)
    requires SysInv(dep, sys) && j < |sys.stellar.outbox| && sys.stellar.outbox[j].dstEid == dep.evmEid
    requires IsConfirmation(sys.stellar.outbox[j].payload)
    ensures SysInv(dep, Arrive(dep, sys, sys.stellar.outbox[j].payload))
  {
    hide SysInv, HashInv, WireInv, LockInv, CauseInv;
    var payload := sys.stellar.outbox[j].payload;
    var h: Word := payload[2..34];
    var t := Arrive(dep, sys, payload);
    if t != sys {
      SysInvAt(dep, sys, h);
      ConfirmationMeans(dep, sys, j, h);
      assert Released(dep, sys, t, h);
      ReleaseKeeps(dep, sys, t, h);
    }
  }

  lemma OnePayout(ps: seq<Escrow.Payout>, p: Escrow.Payout)
    ensures forall g: Word :: Escrow.PayoutsOf(ps + [p], g) == Escrow.PayoutsOf(ps, g) + if g == p.intentHash then [p] else []
  {
    forall g: Word ensures Escrow.PayoutsOf(ps + [p], g) == Escrow.PayoutsOf(ps, g) + if g == p.intentHash then [p] else [] {
      Escrow.PayoutsSnoc(ps, p, g);
    }
  }

  /** A release in full to the locking solver. */
  ghost predicate Released(dep: Deployment, sys: System, t: System, h: Word)
    requires h in sys.escrow.locks
  {
    var r := Escrow.Release(sys.escrow, h, sys.escrow.locks[h].solver, sys.escrow.locks[h].amount);
    r.Ok? && t == sys.(escrow := r.value, gifts := t.gifts)
  }

  lemma ReleasedSelf(dep: Deployment, sys: System, t: System, h: Word)
    requires h in sys.escrow.locks && LockInv(dep, sys, h) && Released(dep, sys, t, h)
    ensures LockInv(dep, t, h)
  {
    hide Escrow.PayoutsOf, Escrow.Transfer;
    OnePayout(sys.escrow.payouts, Escrow.Payout(h, sys.escrow.locks[h].solver, sys.escrow.locks[h].amount));
  }

  lemma ReleasedOthers(dep: Deployment, sys: System, t: System, h: Word)
    requires h in sys.escrow.locks && Released(dep, sys, t, h)
    ensures OnlyLock(sys, t, h)
  {
    hide Escrow.PayoutsOf, Escrow.Transfer;
    OnePayout(sys.escrow.payouts, Escrow.Payout(h, sys.escrow.locks[h].solver, sys.escrow.locks[h].amount));
  }

  /** A refund has one of two causes. */
  ghost predicate Refunded(dep: Deployment, sys: System, t: System, h: Word)
    requires h in sys.escrow.locks
  {
    var r := Escrow.Refund(sys.escrow, h);
    && r.Ok? && t == sys.(escrow := r.value, byCancel := t.byCancel, byTimeout := t.byTimeout)
    && (|| (t.byCancel == sys.byCancel + {h} && t.byTimeout == sys.byTimeout)
        || (t.byCancel == sys.byCancel && h in t.byTimeout && t.byTimeout[h] >= sys.escrow.locks[h].deadline + dep.grace
            && t.byTimeout == sys.byTimeout[h := t.byTimeout[h]]))
  }

  lemma RefundedSelf(dep: Deployment, sys: System, t: System, h: Word)
    requires h in sys.escrow.locks && LockInv(dep, sys, h) && Refunded(dep, sys, t, h)
    ensures LockInv(dep, t, h)
  {
    hide Escrow.PayoutsOf, Escrow.Transfer;
    OnePayout(sys.escrow.payouts, Escrow.Payout(h, sys.escrow.locks[h].user, sys.escrow.locks[h].amount));
  }

  lemma RefundedOthers(dep: Deployment, sys: System, t: System, h: Word)
    requires h in sys.escrow.locks && Refunded(dep, sys, t, h)
    ensures OnlyLock(sys, t, h)
  {
    hide Escrow.PayoutsOf, Escrow.Transfer;
    OnePayout(sys.escrow.payouts, Escrow.Payout(h, sys.escrow.locks[h].user, sys.escrow.locks[h].amount));
  }

  lemma RefundPays(dep: Deployment, sys: System, t: System, h: Word)
    requires BooksBalance(dep, sys) && LockInv(dep, sys, h) && h in sys.escrow.locks && Refunded(dep, sys, t, h)
    ensures BooksBalance(dep, t)
  {
    hide Escrow.LiveSum, Escrow.InOrder, Escrow.PayoutsOf;
    PayKeepsBooks(dep, sys, t, h, sys.escrow.locks[h].user);
  }

  lemma RefundCause(dep: Deployment, sys: System, t: System, h: Word)
    requires h in sys.escrow.locks && Refunded(dep, sys, t, h) && WireInv(dep, sys, h) && CauseInv(dep, sys, h)
    requires h in t.byCancel ==> h in sys.stellar.cancelled
    ensures WireInv(dep, t, h) && CauseInv(dep, t, h)
  {
    hide RecordOf, FitsTheWire;
  }

  /** Either way of refunding a lock, once its cause is given. */
  lemma RefundKeeps(dep: Deployment, sys: System, t: System, h: Word)
    requires SysInv(dep, sys) && h in sys.escrow.locks && Refunded(dep, sys, t, h)
    requires h in t.byCancel ==> h in sys.stellar.cancelled
    ensures SysInv(dep, t)
  {
    hide *;
    BooksOf(dep, sys);
    SysInvAt(dep, sys, h);
    RefundPays(dep, sys, t, h);
    RefundedSelf(dep, sys, t, h);
    RefundedOthers(dep, sys, t, h);
    RefundCause(dep, sys, t, h);
    EscrowStep(dep, sys, t, h);
  }

  lemma RefundStep(dep: Deployment, sys: System, j: nat)
    requires SysInv(dep, sys) && j < |sys.stellar.outbox|
    requires IsCancellation(sys.stellar.outbox[j].payload)
    ensures SysInv(dep, Arrive(dep, sys, sys.stellar.outbox[j].payload))
  {
    hide SysInv, HashInv, WireInv, LockInv, CauseInv;
    var payload := sys.stellar.outbox[j].payload;
    var h: Word := payload[2..34];
    var t := Arrive(dep, sys, payload);
    if t != sys {
      SysInvAt(dep, sys, h);
      CancellationMeans(dep, sys, j, h);
      assert Refunded(dep, sys, t, h);
      RefundKeeps(dep, sys, t, h);
    }
  }

  lemma TimeOutStep(dep: Deployment, sys: System, h: Word, now: nat)
    requires SysInv(dep, sys)
    ensures SysInv(dep, Act(dep, sys, TimeOut(h, now)))
  {
    hide SysInv, HashInv, WireInv;
    var t := Act(dep, sys, TimeOut(h, now));
    if Escrow.CancelExpired(sys.escrow, h, now, dep.grace).Ok? {
      SysInvAt(dep, sys, h);
      assert Refunded(dep, sys, t, h);
      assert h !in t.byCancel;
      RefundKeeps(dep, sys, t, h);
    }
  }

  lemma LockBooks(dep: Deployment, sys: System, t: System, q: FillRequest, user: Escrow.Holder, amount: nat)
    requires BooksBalance(dep, sys) && Allowed(dep, LockFunds(q, user, amount))
    requires var r := Escrow.Lock(sys.escrow, q.intentHash, user, q.solver, amount, q.deadline);
      r.Ok? && t.escrow == r.value && t.gifts == sys.gifts && (forall g: Word :: Escrow.IsFinal(sys.escrow, g) ==> g in sys.escrow.locks)
    ensures BooksBalance(dep, t)
  {
    hide Escrow.InOrder, Escrow.LiveSum;
    Escrow.LockSum(sys.escrow, t.escrow, q.intentHash);
    Escrow.LockInOrder(sys.escrow, t.escrow, q.intentHash);
  }

  lemma LockStory(dep: Deployment, sys: System, q: FillRequest, user: Escrow.Holder, amount: nat)
    requires Allowed(dep, LockFunds(q, user, amount))
    requires var h: Word := q.intentHash; LockInv(dep, sys, h) && WireInv(dep, sys, h) && CauseInv(dep, sys, h)
    requires Escrow.Lock(sys.escrow, q.intentHash, user, q.solver, amount, q.deadline).Ok?
    ensures var h: Word := q.intentHash; var t := Act(dep, sys, LockFunds(q, user, amount));
      LockInv(dep, t, h) && WireInv(dep, t, h) && CauseInv(dep, t, h) && OnlyLock(sys, t, h)
  {
    hide RecordOf, Escrow.PayoutsOf, FitsTheWire, Escrow.Transfer;
  }

  lemma LockStep(dep: Deployment, sys: System, q: FillRequest, user: Escrow.Holder, amount: nat)
    requires SysInv(dep, sys) && Allowed(dep, LockFunds(q, user, amount))
    ensures SysInv(dep, Act(dep, sys, LockFunds(q, user, amount)))
  {
    var t := Act(dep, sys, LockFunds(q, user, amount));
    var h: Word := q.intentHash;
    if Escrow.Lock(sys.escrow, h, user, q.solver, amount, q.deadline).Ok? {
      forall g: Word ensures Escrow.IsFinal(sys.escrow, g) ==> g in sys.escrow.locks { SysInvAt(dep, sys, g); }
      SysInvAt(dep, sys, h);
      hide LockInv, WireInv, CauseInv, OnlyLock, SysInv, HashInv, FitsTheWire;
      LockBooks(dep, sys, t, q, user, amount) by { BooksOf(dep, sys); }
      hide BooksBalance, Escrow.Lock;
      LockStory(dep, sys, q, user, amount);
      EscrowStep(dep, sys, t, h);
    }
  }

  lemma BooksOf(dep: Deployment, sys: System)
    requires SysInv(dep, sys)
    ensures BooksBalance(dep, sys) && SaneConfig(dep, sys.stellar.cfg)
  {
    hide BooksBalance, LockInv, WireInv, CauseInv, Inv;
  }

  lemma MoveBooks(dep: Deployment, sys: System, t: System, from: Escrow.Holder, to: Escrow.Holder, amount: nat)
    requires BooksBalance(dep, sys) && from != dep.holder
    requires var r := Escrow.Transfer(sys.escrow.balances, from, to, amount);
      r.Ok? && t == sys.(escrow := sys.escrow.(balances := r.value), gifts := sys.gifts + GiftIf(dep, to, amount))
    ensures BooksBalance(dep, t)
  {
    hide Escrow.LiveSum;
    Escrow.LiveSumSame(sys.escrow, t.escrow, sys.escrow.order);
  }

  /** Only the balances, and what was given, differ. */
  lemma MoveKeeps(dep: Deployment, sys: System, t: System)
    requires SysInv(dep, sys) && BooksBalance(dep, t)
    requires t == sys.(escrow := sys.escrow.(balances := t.escrow.balances), gifts := t.gifts)
    ensures SysInv(dep, t)
  {
    hide LockInv, WireInv, CauseInv, HashInv, BooksBalance, Inv;
    forall g: Word ensures LockInv(dep, t, g) && WireInv(dep, t, g) && CauseInv(dep, t, g) {
      SysInvAt(dep, sys, g);
      OthersKept(dep, sys, t, g);
    }
  }

  lemma MoveStep(dep: Deployment, sys: System, from: Escrow.Holder, to: Escrow.Holder, amount: nat)
    requires SysInv(dep, sys) && from != dep.holder
    ensures SysInv(dep, Act(dep, sys, MoveTokens(from, to, amount)))
  {
    hide SysInv, BooksBalance;
    var t := Act(dep, sys, MoveTokens(from, to, amount));
    if Escrow.Transfer(sys.escrow.balances, from, to, amount).Ok? {
      BooksOf(dep, sys);
      MoveBooks(dep, sys, t, from, to, amount);
      MoveKeeps(dep, sys, t);
    }
  }

  // --- Every run ----------------------------------------------------------------------

  lemma ActKeepsInv(dep: Deployment, sys: System, a: Action)
    requires SysInv(dep, sys) && Allowed(dep, a)
    ensures SysInv(dep, Act(dep, sys, a))
  {
    hide SysInv, Execute, Arrive, IsConfirmation, IsCancellation, HonestRecord;
    BooksOf(dep, sys);
    match a
    case LockFunds(q, user, amount) => LockStep(dep, sys, q, user, amount);
    case RelayFill(env, h, nonce) =>
      if h in sys.requests && FitsTheWire(sys.requests[h]) {
        var c := RelayedCall(dep, sys.requests[h], nonce);
        SysInvAt(dep, sys, h);
        if Execute(env, sys.stellar, c).Ok? {
          forall g: Word ensures HonestRecord(dep, sys, Execute(env, sys.stellar, c).value, g) {
            RelayedHonest(dep, sys, env, h, nonce, g);
          }
        }
        CallOnStellar(dep, sys, env, c);
      }
    case OnStellar(Invoked(env, c)) =>
      if Execute(env, sys.stellar, c).Ok? {
        forall g: Word ensures HonestRecord(dep, sys, Execute(env, sys.stellar, c).value, g) {
          UnlessForged(dep, sys, env, c, g);
        }
      }
      CallOnStellar(dep, sys, env, c);
    case OnStellar(event) => OtherOnStellar(dep, sys, Step(sys.stellar, event));
    case RelayBack(j) =>
      if j < |sys.stellar.outbox| && sys.stellar.outbox[j].dstEid == dep.evmEid {
        var payload := sys.stellar.outbox[j].payload;
        if IsConfirmation(payload) { ReleaseStep(dep, sys, j); }
        else if IsCancellation(payload) { RefundStep(dep, sys, j); }
        else { NothingArrives(dep, sys, payload); }
      }
    case TimeOut(h, now) => TimeOutStep(dep, sys, h, now);
    case MoveTokens(from, to, amount) => MoveStep(dep, sys, from, to, amount);
  }

  lemma NothingArrives(dep: Deployment, sys: System, payload: seq<byte>)
    requires !IsConfirmation(payload) && !IsCancellation(payload)
    ensures Arrive(dep, sys, payload) == sys
  {
  }

  ghost predicate AllAllowed(dep: Deployment, run: seq<Action>) {
    forall a <- run :: Allowed(dep, a)
  }

  ghost function Run(dep: Deployment, sys: System, run: seq<Action>): System
    requires AllAllowed(dep, run)
  {
    if run == [] then sys else Act(dep, Run(dep, sys, run[..|run| - 1]), run[|run| - 1])
  }

  /** Both contracts freshly deployed and wired to each other; the escrow holds nothing. */
  ghost predicate Deployed(dep: Deployment, sys: System) {
    && Initial(sys.stellar) && SaneConfig(dep, sys.stellar.cfg)
    && sys.escrow == Escrow.EscrowState(dep.holder, map[], [], {}, {}, sys.escrow.balances, [])
    && Escrow.BalanceOf(sys.escrow.balances, dep.holder) == 0
    && sys.requests == map[] && sys.byCancel == {} && sys.byTimeout == map[] && sys.gifts == 0
  }

  lemma DeployedInv(dep: Deployment, sys: System)
    requires Deployed(dep, sys)
    ensures SysInv(dep, sys)
  {
    forall h: Word ensures HashInv(sys.stellar, h) { }
    hide HashInv, RecordOf;
  }

  lemma {:induction false} RunKeepsInv(dep: Deployment, sys: System, run: seq<Action>)
    requires SysInv(dep, sys) && AllAllowed(dep, run)
    ensures SysInv(dep, Run(dep, sys, run))
  {
    if run != [] {
      var m := |run| - 1;
      hide SysInv, Allowed, Act;
      RunKeepsInv(dep, sys, run[..m]);
      ActKeepsInv(dep, Run(dep, sys, run[..m]), run[m]);
    }
  }

  // --- The promises ---------------------------------------------------------------------

  /** Live, or refunded in full to the user, or released in full to the locking solver; never two of these. */
  lemma {:induction false} LocksEndOneWay(dep: Deployment, sys: System, run: seq<Action>, h: Word)
    requires Deployed(dep, sys) && AllAllowed(dep, run)
    requires h in Run(dep, sys, run).escrow.locks
    ensures var e := Run(dep, sys, run).escrow; var lock := e.locks[h]; var paid := Escrow.PayoutsOf(e.payouts, h);
      || (h !in e.released && h !in e.refunded && paid == [])
      || (h !in e.released && h in e.refunded && paid == [Escrow.Payout(h, lock.user, lock.amount)])
      || (h in e.released && h !in e.refunded && paid == [Escrow.Payout(h, lock.solver, lock.amount)])
  {
    hide SysInv, Run, HashInv, WireInv, CauseInv, Escrow.PayoutsOf;
    DeployedInv(dep, sys);
    RunKeepsInv(dep, sys, run);
    SysInvAt(dep, Run(dep, sys, run), h);
  }

  /** A released lock was delivered first: once, to its own recipient, in its own asset, at least its minimum. */
  lemma {:induction false} ReleasedMeansDelivered(dep: Deployment, sys: System, run: seq<Action>, h: Word)
    requires Deployed(dep, sys) && AllAllowed(dep, run)
    requires h in Run(dep, sys, run).escrow.released
    ensures var t := Run(dep, sys, run);
      && h in t.requests && FitsTheWire(t.requests[h])
      && var q := t.requests[h]; var ds := DeliveriesOf(t.stellar.deliveries, h);
         |ds| == 1 && ds[0].to == q.destination && ds[0].token == AssetOf(dep, q) && ds[0].amount >= q.minDestAmount > 0
  {
    hide SysInv, Run, LockInv, MessagesAgree, DeliveriesOf, AssetOf;
    var t := Run(dep, sys, run);
    DeployedInv(dep, sys);
    RunKeepsInv(dep, sys, run);
    SysInvAt(dep, t, h);
  }

  /** A lock refunded because Stellar cancelled it was not delivered and never will be. */
  lemma {:induction false} CancelledMeansNeverDelivered(dep: Deployment, sys: System, run: seq<Action>, h: Word)
    requires Deployed(dep, sys) && AllAllowed(dep, run)
    requires h in Run(dep, sys, run).byCancel
    ensures var t := Run(dep, sys, run).stellar; DeliveriesOf(t.deliveries, h) == [] && Status(t, h) == Some(Cancelled)
  {
    hide SysInv, Run, LockInv, WireInv, MessagesAgree, DeliveriesOf;
    var t := Run(dep, sys, run);
    DeployedInv(dep, sys);
    RunKeepsInv(dep, sys, run);
    SysInvAt(dep, t, h);
  }

  /** The escrow holds exactly what it owes, plus what reached it other than as a lock. */
  lemma {:induction false} EscrowIsSolvent(dep: Deployment, sys: System, run: seq<Action>)
    requires Deployed(dep, sys) && AllAllowed(dep, run)
    ensures var t := Run(dep, sys, run);
      Escrow.BalanceOf(t.escrow.balances, dep.holder) == Escrow.LiveSum(t.escrow, t.escrow.order) + t.gifts
  {
    hide SysInv, Run, Escrow.LiveSum;
    DeployedInv(dep, sys);
    RunKeepsInv(dep, sys, run);
    BooksOf(dep, Run(dep, sys, run));
  }

  lemma ActKeepsSupply(dep: Deployment, sys: System, a: Action)
    requires Allowed(dep, a)
    ensures Escrow.Supply(Act(dep, sys, a).escrow.balances) == Escrow.Supply(sys.escrow.balances)
  {
    hide Escrow.Supply, Allowed, Commit, Step;
    var b := sys.escrow.balances;
    var t := Act(dep, sys, a).escrow.balances;
    if t != b {
      var from, to, amount :| Escrow.Transfer(b, from, to, amount) == Prelude.Ok(t);
      Escrow.TransferKeepsSupply(b, from, to, amount);
    }
  }

  /** Locks, releases, refunds and strays only ever move tokens: over any run the supply stays what it was. */
  lemma {:induction false} SupplyIsConserved(dep: Deployment, sys: System, run: seq<Action>)
    requires AllAllowed(dep, run)
    ensures Escrow.Supply(Run(dep, sys, run).escrow.balances) == Escrow.Supply(sys.escrow.balances)
  {
    hide Escrow.Supply, Act, Allowed;
    if run != [] {
      var m := |run| - 1;
      SupplyIsConserved(dep, sys, run[..m]);
      ActKeepsSupply(dep, Run(dep, sys, run[..m]), run[m]);
    }
  }

  /** Once the deadline and the grace period are over, the user can always have a live lock back. */
  lemma {:induction false} TimeoutAlwaysPays(dep: Deployment, sys: System, run: seq<Action>, h: Word, now: nat)
    requires Deployed(dep, sys) && AllAllowed(dep, run)
    requires var e := Run(dep, sys, run).escrow; h in e.locks && !Escrow.IsFinal(e, h)
    ensures var e := Run(dep, sys, run).escrow;
      now >= e.locks[h].deadline + dep.grace <==> Escrow.CancelExpired(e, h, now, dep.grace).Ok?
  {
    hide SysInv, Run, Escrow.LiveSum;
    DeployedInv(dep, sys);
    RunKeepsInv(dep, sys, run);
    BooksOf(dep, Run(dep, sys, run));
    LiveLockIsCovered(dep, Run(dep, sys, run), h);
  }

  /** Past the dispatch window both ways of confirming are shut. */
  lemma LateIsRefused(env: Env, s: State, h: Word, caller: Address, lzFee: i128)
    requires h in s.intents && env.now > s.intents[h].deadline + MIN_DISPATCH_WINDOW
    ensures DispatchConfirmation(env, s, caller, h, lzFee).Err?
    ensures forall solver, solverEvm, amount, fee :: FillIntent(env, s, solver, solverEvm, h, amount, fee).Err?
  {
    hide IsEvmAddress;
    forall solver, solverEvm, amount, fee ensures FillIntent(env, s, solver, solverEvm, h, amount, fee).Err? {
      assert ValidateFill(env, s, solver, solverEvm, h, amount).Err?;
    }
  }

  lemma TimedOutDeadline(dep: Deployment, sys: System, h: Word)
    requires LockInv(dep, sys, h) && WireInv(dep, sys, h) && h in sys.byTimeout && h in sys.requests
    requires h in sys.stellar.intents && sys.stellar.intents[h].srcEid == dep.evmEid
    ensures sys.byTimeout[h] >= sys.stellar.intents[h].deadline + dep.grace
  {
    hide AssetOf, Escrow.PayoutsOf;
  }

  /**
   * With a grace period longer than the contract's dispatch window, and a Stellar clock
   * not behind the moment of the refund, no confirmation leaves after a local timeout.
   */
  lemma {:induction false} NoConfirmationAfterTimeout(dep: Deployment, sys: System, run: seq<Action>, h: Word, env: Env, caller: Address, lzFee: i128)
    requires Deployed(dep, sys) && AllAllowed(dep, run) && dep.grace > MIN_DISPATCH_WINDOW
    requires h in Run(dep, sys, run).byTimeout && env.now >= Run(dep, sys, run).byTimeout[h]
    requires h in Run(dep, sys, run).requests
    ensures var t := Run(dep, sys, run).stellar;
      h in t.intents && t.intents[h].srcEid == dep.evmEid ==>
        && DispatchConfirmation(env, t, caller, h, lzFee).Err?
        && forall solver, solverEvm, amount, fee :: FillIntent(env, t, solver, solverEvm, h, amount, fee).Err?
  {
    hide SysInv, Run, HashInv, LockInv, WireInv, CauseInv, DispatchConfirmation, FillIntent;
    var t := Run(dep, sys, run);
    DeployedInv(dep, sys);
    RunKeepsInv(dep, sys, run);
    SysInvAt(dep, t, h);
    if h in t.stellar.intents && t.stellar.intents[h].srcEid == dep.evmEid {
      TimedOutDeadline(dep, t, h);
      LateIsRefused(env, t.stellar, h, caller, lzFee);
    }
  }

  /** Stellar may still dispatch and the escrow already refund. */
  predicate BothOpen(now: u64, deadline: u64, grace: nat) {
    deadline + grace <= now <= SatAdd64(deadline, MIN_DISPATCH_WINDOW)
  }

  /** At a grace of exactly the dispatch window the two share one instant; any longer and they never meet. */
  lemma WindowsMeetIffGraceIsShort(deadline: u64, grace: nat)
    requires deadline + MIN_DISPATCH_WINDOW < U64_LIMIT
    ensures (exists now: u64 :: BothOpen(now, deadline, grace)) <==> grace <= MIN_DISPATCH_WINDOW
  {
    if grace <= MIN_DISPATCH_WINDOW {
      assert BothOpen(deadline + MIN_DISPATCH_WINDOW, deadline, grace);
    }
  }

  // --- When both sides are paid ---------------------------------------------------------

  /** The timeout is pulled on a live lock, past deadline and grace, whose fill is already delivered. */
  predicate RefundsDelivered(dep: Deployment, sys: System, a: Action, h: Word) {
    && a.TimeOut? && a.h == h && h in sys.escrow.locks && !Escrow.IsFinal(sys.escrow, h)
    && a.now >= sys.escrow.locks[h].deadline + dep.grace
    && DeliveriesOf(sys.stellar.deliveries, h) != []
  }

  /** The user has the tokens back by timeout, and the recipient was paid as well. */
  predicate BothPaid(sys: System, h: Word) {
    h in sys.byTimeout && DeliveriesOf(sys.stellar.deliveries, h) != []
  }

  /** The Stellar clock is not behind the moment of any local refund. */
  predicate NotBehind(sys: System, a: Action) {
    a.OnStellar? && a.event.Invoked? ==> forall g <- sys.byTimeout :: a.event.env.now >= sys.byTimeout[g]
  }

  predicate FromEscrow(dep: Deployment, s: State, h: Word) {
    h in s.intents ==> s.intents[h].srcEid == dep.evmEid
  }

  /** Only a fill settles, and only with the dispatch window still ahead of the deadline. */
  lemma OnlyEarlyFillSettles(env: Env, s: State, c: Call, h: Word)
    requires Execute(env, s, c).Ok? && h !in s.settled && h in Execute(env, s, c).value.settled
    ensures !IsInbound(c) && h in s.intents && SatAdd64(env.now, MIN_DISPATCH_WINDOW) <= s.intents[h].deadline
  {
    hide ApplyInbound, PruneWords, ResetCap, Transfer, EncodeFillConfirmed, EncodeCancel, DecodeMessage, IsEvmAddress;
    match c
    case Receive(origin, m) => InboundSettlesNothing(env, s, origin, m);
    case ReceiveBytes(origin, bytes) =>
      DecodedShape(bytes);
      InboundSettlesNothing(env, s, origin, ResolveMessage(env, s.cfg, DecodeMessage(bytes).value).value);
    case Prune(eid) => PruneSettlesNothing(s, eid);
    case ResetWindow => ResetSettlesNothing(env, s);
    case _ =>
  }

  lemma InboundSettlesNothing(env: Env, s: State, origin: Origin, m: LzMessage)
    requires ApplyInbound(env, s, origin, m).Ok?
    ensures ApplyInbound(env, s, origin, m).value.settled == s.settled
  {
    hide ValueCaps.EnforceValueCaps;
  }

  lemma PruneSettlesNothing(s: State, eid: Eid)
    requires PruneWords(s, eid).Ok?
    ensures PruneWords(s, eid).value.settled == s.settled
  {
  }

  lemma ResetSettlesNothing(env: Env, s: State)
    requires ResetCap(env, s).Ok?
    ensures ResetCap(env, s).value.settled == s.settled
  {
  }

  lemma DeliveredIffSettled(s: State, h: Word)
    requires HashInv(s, h)
    ensures DeliveriesOf(s.deliveries, h) != [] <==> h in s.settled
  {
    hide MessagesAgree;
  }

  lemma ActMovesForward(dep: Deployment, sys: System, a: Action, h: Word)
    requires SysInv(dep, sys) && Allowed(dep, a)
    ensures var t := Act(dep, sys, a); MovesForward(sys.stellar, t.stellar, h) && HashInv(t.stellar, h)
  {
    hide HashInv, MovesForward, Execute, Arrive, LockInv, WireInv, CauseInv, BooksBalance;
    SysInvAt(dep, sys, h);
    match a
    case RelayFill(env, g, nonce) =>
      if g in sys.requests && FitsTheWire(sys.requests[g]) {
        StepKept(sys.stellar, Invoked(env, RelayedCall(dep, sys.requests[g], nonce)), h);
      } else {
        SameIntentsKept(sys.stellar, sys.stellar, h);
      }
    case OnStellar(event) => StepKept(sys.stellar, event, h);
    case _ =>
      ElsewhereKeepsStellar(dep, sys, a);
      SameIntentsKept(sys.stellar, sys.stellar, h);
  }

  lemma ElsewhereKeepsStellar(dep: Deployment, sys: System, a: Action)
    requires Allowed(dep, a) && !a.RelayFill? && !a.OnStellar?
    ensures Act(dep, sys, a).stellar == sys.stellar
  {
    hide Execute;
  }

  lemma TimeoutsGrow(dep: Deployment, sys: System, a: Action, h: Word)
    requires Allowed(dep, a) && !(a.TimeOut? && a.h == h)
    ensures h in Act(dep, sys, a).byTimeout <==> h in sys.byTimeout
  {
    hide Execute, Arrive, Allowed;
    if a.RelayBack? && a.j < |sys.stellar.outbox| { ArriveTimesNothingOut(dep, sys, sys.stellar.outbox[a.j].payload); }
  }

  lemma ArriveTimesNothingOut(dep: Deployment, sys: System, payload: seq<byte>)
    ensures Arrive(dep, sys, payload).byTimeout == sys.byTimeout
  {
  }

  /** After a local refund, with the clocks in order, nothing of the escrow's is delivered any more. */
  lemma NoDeliveryAfterTimeout(dep: Deployment, sys: System, a: Action, h: Word)
    requires SysInv(dep, sys) && Allowed(dep, a) && NotBehind(sys, a) && FromEscrow(dep, sys.stellar, h)
    requires h in sys.byTimeout && h !in sys.stellar.settled
    ensures h !in Act(dep, sys, a).stellar.settled
  {
    hide Execute, Arrive, LockInv, WireInv, CauseInv, BooksBalance, RelayedCall;
    SysInvAt(dep, sys, h);
    if h in Act(dep, sys, a).stellar.settled {
      match a
      case RelayFill(env, g, nonce) =>
        RelayedIsInbound(dep, sys.requests[g], nonce);
        OnlyEarlyFillSettles(env, sys.stellar, RelayedCall(dep, sys.requests[g], nonce), h);
      case OnStellar(Invoked(env, c)) =>
        OnlyEarlyFillSettles(env, sys.stellar, c, h);
        RecordedIsRequested(dep, sys, h);
        TimedOutDeadline(dep, sys, h);
        TooLate(env, sys.stellar.intents[h].deadline, sys.byTimeout[h]);
      case OnStellar(_) =>
      case _ => ElsewhereKeepsStellar(dep, sys, a);
    }
  }

  lemma RecordedIsRequested(dep: Deployment, sys: System, h: Word)
    requires WireInv(dep, sys, h) && h in sys.stellar.intents && sys.stellar.intents[h].srcEid == dep.evmEid
    ensures h in sys.requests
  {
  }

  lemma TooLate(env: Env, deadline: u64, refundedAt: nat)
    requires SaneClock(env) && env.now >= refundedAt >= deadline
    ensures SatAdd64(env.now, MIN_DISPATCH_WINDOW) > deadline
  {
  }

  lemma RelayedIsInbound(dep: Deployment, q: FillRequest, nonce: u64)
    requires FitsTheWire(q)
    ensures IsInbound(RelayedCall(dep, q, nonce))
  {
  }

  /** One step makes both sides paid exactly if it refunds a delivered fill. */
  lemma StepPaysBoth(dep: Deployment, sys: System, a: Action, h: Word)
    requires SysInv(dep, sys) && Allowed(dep, a) && NotBehind(sys, a) && FromEscrow(dep, sys.stellar, h)
    ensures BothPaid(Act(dep, sys, a), h) <==> BothPaid(sys, h) || RefundsDelivered(dep, sys, a, h)
  {
    hide SysInv, Act, Allowed, HashInv, MovesForward, NotBehind, DeliveriesOf, LockInv, WireInv, CauseInv;
    var t := Act(dep, sys, a);
    SysInvAt(dep, sys, h);
    ActMovesForward(dep, sys, a, h);
    SettledGrows(sys.stellar, t.stellar, h);
    DeliveredIffSettled(sys.stellar, h);
    DeliveredIffSettled(t.stellar, h);
    if a.TimeOut? && a.h == h {
      TimeOutPays(dep, sys, h, a.now);
    } else {
      TimeoutsGrow(dep, sys, a, h);
      if h in sys.byTimeout && h !in sys.stellar.settled { NoDeliveryAfterTimeout(dep, sys, a, h); }
    }
  }

  lemma SettledGrows(s: State, t: State, h: Word)
    requires MovesForward(s, t, h)
    ensures s.settled <= t.settled && (h in s.intents ==> h in t.intents && t.intents[h].srcEid == s.intents[h].srcEid)
  {
  }

  /** A timeout goes through exactly on a live lock past deadline and grace. */
  lemma TimeOutPays(dep: Deployment, sys: System, h: Word, now: nat)
    requires SysInv(dep, sys)
    ensures var t := Act(dep, sys, TimeOut(h, now));
      && t.stellar == sys.stellar
      && (h in t.byTimeout <==>
            || h in sys.byTimeout
            || (h in sys.escrow.locks && !Escrow.IsFinal(sys.escrow, h) && now >= sys.escrow.locks[h].deadline + dep.grace))
  {
    hide LockInv, WireInv, CauseInv, Inv, Escrow.LiveSum;
    BooksOf(dep, sys);
    if h in sys.escrow.locks && !Escrow.IsFinal(sys.escrow, h) { LiveLockIsCovered(dep, sys, h); }
  }

  ghost predicate NeverBehind(dep: Deployment, sys: System, run: seq<Action>)
    requires AllAllowed(dep, run)
  {
    run == []
    || (var m := |run| - 1; NeverBehind(dep, sys, run[..m]) && NotBehind(Run(dep, sys, run[..m]), run[m]))
  }

  /** Some step of the run refunded a lock whose fill was delivered. */
  ghost predicate RefundedADelivery(dep: Deployment, sys: System, run: seq<Action>, h: Word)
    requires AllAllowed(dep, run)
  {
    run != []
    && (var m := |run| - 1;
        RefundedADelivery(dep, sys, run[..m], h) || RefundsDelivered(dep, Run(dep, sys, run[..m]), run[m], h))
  }

  /**
   * Over every run whose Stellar clock is not behind the escrow's refunds, user and recipient
   * are both paid exactly if the timeout was pulled on a delivered lock that no confirmation
   * had released by its deadline plus grace.
   */
  lemma {:induction false} BothPaidIffTimeoutAfterDelivery(dep: Deployment, sys: System, run: seq<Action>, h: Word)
    requires Deployed(dep, sys) && AllAllowed(dep, run) && NeverBehind(dep, sys, run)
    requires FromEscrow(dep, Run(dep, sys, run).stellar, h)
    ensures BothPaid(Run(dep, sys, run), h) <==> RefundedADelivery(dep, sys, run, h)
  {
    hide SysInv, Act, Allowed, BothPaid, RefundsDelivered, NotBehind, MovesForward, HashInv, Deployed;
    DeployedInv(dep, sys);
    if run == [] {
      NothingPaidYet(dep, sys, h);
    } else {
      var m := |run| - 1;
      var here := Run(dep, sys, run[..m]);
      RunKeepsInv(dep, sys, run[..m]);
      ActMovesForward(dep, here, run[m], h);
      SettledGrows(here.stellar, Act(dep, here, run[m]).stellar, h);
      BothPaidIffTimeoutAfterDelivery(dep, sys, run[..m], h);
      StepPaysBoth(dep, here, run[m], h);
    }
  }

  lemma NothingPaidYet(dep: Deployment, sys: System, h: Word)
    requires Deployed(dep, sys)
    ensures !BothPaid(sys, h)
  {
  }
}
