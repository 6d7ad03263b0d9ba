/**
 * What every run of the settlement contract keeps: markers, record, deliveries and
 * outgoing messages of one intent always tell the same story, and the story only
 * moves forward.
 */
module SettlementSafety {
  import opened Prelude
  import opened Types
  import opened Nonces
  import opened ValueCaps
  import opened Messages
  import opened Settlement

  // --- The ledgers, intent by intent --------------------------------------------

  function DeliveriesOf(ds: seq<Delivery>, h: Word): seq<Delivery> {
    if ds == [] then []
    else
      var d := ds[|ds| - 1];
      DeliveriesOf(ds[..|ds| - 1], h) + if d.intentHash == h then [d] else []
  }

  /** Every outbound payload carries its intent hash after version and type. */
  predicate Mentions(p: Packet, h: Word) {
    |p.payload| >= 34 && p.payload[2..34] == h
  }

  function MessagesOf(outbox: seq<Packet>, h: Word): seq<(Eid, seq<byte>)> {
    if outbox == [] then []
    else
      var p := outbox[|outbox| - 1];
      MessagesOf(outbox[..|outbox| - 1], h) + if Mentions(p, h) then [(p.dstEid, p.payload)] else []
  }

  lemma DeliveriesSnoc(ds: seq<Delivery>, d: Delivery, h: Word)
    ensures DeliveriesOf(ds + [d], h) == DeliveriesOf(ds, h) + if d.intentHash == h then [d] else []
  {
    assert (ds + [d])[..|ds|] == ds;
  }

  lemma MessagesSnoc(outbox: seq<Packet>, p: Packet, h: Word)
    ensures MessagesOf(outbox + [p], h) == MessagesOf(outbox, h) + if Mentions(p, h) then [(p.dstEid, p.payload)] else []
  {
    assert (outbox + [p])[..|outbox|] == outbox;
  }

  lemma PayloadsMention(g: Word, solverEvm: Word, amount: i128, ledger: u32, reason: byte, dst: Eid, to: Word, h: Word)
    ensures Mentions(Packet(dst, to, EncodeFillConfirmed(g, solverEvm, amount, ledger)), h) <==> g == h
    ensures Mentions(Packet(dst, to, EncodeCancel(g, reason)), h) <==> g == h
  {
    hide BigEndian;
    assert EncodeFillConfirmed(g, solverEvm, amount, ledger)[2..34] == g;
    assert EncodeCancel(g, reason)[2..34] == g;
  }

  // --- The invariant ------------------------------------------------------------

  function MarkedStatus(s: State, h: Word): IntentStatus {
    if h in s.confirmationSent then ConfirmationSent
    else if h in s.settled then Filled
    else if h in s.cancelled then Cancelled
    else Locked
  }

  predicate MarkersAgree(s: State, h: Word) {
    && !(h in s.settled && h in s.cancelled)
    && (h in s.confirmationSent ==> h in s.settled)
    && (h in s.settled ==> h in s.intents)
  }

  predicate RecordAgrees(s: State, h: Word) {
    h in s.intents ==>
      var rec := s.intents[h];
      && rec.intentHash == h && rec.minDestAmount > 0
      && rec.status == MarkedStatus(s, h)
      && (h in s.settled ==> rec.solver.Some? && rec.solverEvm.Some? && rec.fillAmount >= rec.minDestAmount)
  }

  /** One transfer of the recorded amount to the recorded recipient if filled, otherwise none. */
  predicate DeliveriesAgree(s: State, h: Word)
    requires MarkersAgree(s, h) && RecordAgrees(s, h)
  {
    DeliveriesOf(s.deliveries, h) ==
      if h in s.settled then
        var rec := s.intents[h];
        [Delivery(h, rec.destAsset, rec.solver.value, rec.recipient, rec.fillAmount)]
      else []
  }

  /** One FillConfirmed if confirmed, at most one CancelIntent if cancelled, otherwise nothing. */
  predicate MessagesAgree(s: State, h: Word)
    requires MarkersAgree(s, h) && RecordAgrees(s, h)
  {
    var sent := MessagesOf(s.outbox, h);
    if h in s.confirmationSent then
      var rec := s.intents[h];
      sent == [(rec.srcEid, ConfirmationPayload(rec, rec.solverEvm.value))]
    else
      || sent == []
      || (h in s.cancelled && h in s.intents && sent == [(s.intents[h].srcEid, EncodeCancel(h, CANCEL_REASON_EXPIRED))])
  }

  predicate HashInv(s: State, h: Word) {
    MarkersAgree(s, h) && RecordAgrees(s, h) && DeliveriesAgree(s, h) && MessagesAgree(s, h)
  }

  // --- One step -------------------------------------------------------------------

  /** The status graph: registered, filled, confirmed; or cancelled from either open state. */
  predicate StatusMoves(a: Option<IntentStatus>, b: Option<IntentStatus>) {
    || a == b
    || (a == None && b in {Some(Locked), Some(Cancelled)})
    || (a == Some(Locked) && b in {Some(Filled), Some(ConfirmationSent), Some(Cancelled)})
    || (a == Some(Filled) && b == Some(ConfirmationSent))
  }

  /** What registration fixed for good. */
  predicate SameTerms(a: IntentRecord, b: IntentRecord) {
    && a.intentHash == b.intentHash && a.srcEid == b.srcEid && a.recipient == b.recipient && a.destAsset == b.destAsset
    && a.minDestAmount == b.minDestAmount && a.deadline == b.deadline && a.preferredSolver == b.preferredSolver
    && a.reservationExpires == b.reservationExpires
  }

  /** Reserved up to its deadline for the key that locked the funds. */
  predicate FullyReserved(r: IntentRecord) {
    r.solverEvm.Some? && r.reservationExpires >= r.deadline
  }

  predicate MovesForward(s: State, s': State, h: Word) {
    && s.settled <= s'.settled && s.cancelled <= s'.cancelled && s.confirmationSent <= s'.confirmationSent
    && s.deliveries <= s'.deliveries && s.outbox <= s'.outbox
    && StatusMoves(Status(s, h), Status(s', h))
    && (h in s.intents ==> h in s'.intents && SameTerms(s.intents[h], s'.intents[h])
                           && (FullyReserved(s.intents[h]) ==> s'.intents[h].solverEvm == s.intents[h].solverEvm))
  }

  predicate Kept(s: State, s': State, h: Word) {
    HashInv(s', h) && MovesForward(s, s', h)
  }

  /** Far enough from the end of time for the deadline arithmetic not to saturate. */
  predicate SaneClock(env: Env) {
    env.now + MAX_DEADLINE_HORIZON + MIN_DISPATCH_WINDOW < U64_LIMIT
  }

  /** Nothing that speaks of `h` changed. */
  predicate Untouched(s: State, s': State, h: Word) {
    && s.settled <= s'.settled && s.cancelled <= s'.cancelled && s.confirmationSent <= s'.confirmationSent
    && (h in s'.settled ==> h in s.settled) && (h in s'.cancelled ==> h in s.cancelled)
    && (h in s'.confirmationSent ==> h in s.confirmationSent)
    && (if h in s.intents then h in s'.intents && s'.intents[h] == s.intents[h] else h !in s'.intents)
    && s.deliveries <= s'.deliveries && DeliveriesOf(s'.deliveries, h) == DeliveriesOf(s.deliveries, h)
    && s.outbox <= s'.outbox && MessagesOf(s'.outbox, h) == MessagesOf(s.outbox, h)
  }

  lemma UntouchedKept(s: State, s': State, h: Word)
    requires HashInv(s, h) && Untouched(s, s', h)
    ensures Kept(s, s', h)
  {
  }

  /** Storage and ledgers that speak of no intent may change freely. */
  predicate SameIntents(s: State, s': State) {
    && s.intents == s'.intents && s.settled == s'.settled && s.cancelled == s'.cancelled
    && s.confirmationSent == s'.confirmationSent && s.deliveries == s'.deliveries && s.outbox == s'.outbox
  }

  lemma SameIntentsKept(s: State, s': State, h: Word)
    requires HashInv(s, h) && SameIntents(s, s')
    ensures Kept(s, s', h)
  {
    hide HashInv, Kept;
    UntouchedKept(s, s', h);
  }

  /** Two steps of the same call. */
  lemma KeptThenSame(s: State, s1: State, s2: State, h: Word)
    requires Kept(s, s1, h) && SameIntents(s1, s2)
    ensures Kept(s, s2, h)
  {
  }

  lemma RewardKeeps(env: Env, s: State, to: Address, reward: i128, due: bool)
    requires PayReward(env, s, to, reward, due).Ok?
    ensures SameIntents(s, PayReward(env, s, to, reward, due).value)
  {
  }

  /** What a valid fill has established. */
  lemma ValidFill(env: Env, s: State, solver: Address, solverEvm: Word, g: Word, amount: i128)
    requires ValidateFill(env, s, solver, solverEvm, g, amount).Ok?
    ensures g in s.intents && ValidateFill(env, s, solver, solverEvm, g, amount).value == s.intents[g]
    ensures !IsFinalized(s, g) && s.intents[g].status == Locked && amount >= s.intents[g].minDestAmount
    ensures SaneClock(env) && FullyReserved(s.intents[g]) ==> s.intents[g].solverEvm == Some(solverEvm)
  {
    hide IsEvmAddress;
  }

  /** The state in the middle of a fill: delivered and recorded, nothing sent. */
  function Filled1(env: Env, s: State, b: Balances, solver: Address, solverEvm: Word, g: Word, amount: i128): State
    requires g in s.intents
  {
    var rec := s.intents[g];
    s.(settled := s.settled + {g}, balances := b,
       deliveries := s.deliveries + [Delivery(g, rec.destAsset, solver, rec.recipient, amount)],
       intents := s.intents[g := FilledRecord(env, rec, solver, solverEvm, amount)])
  }

  lemma FilledSelf(env: Env, s: State, b: Balances, solver: Address, solverEvm: Word, g: Word, amount: i128)
    requires HashInv(s, g)
    requires g in s.intents && !IsFinalized(s, g) && s.intents[g].status == Locked && amount >= s.intents[g].minDestAmount
    requires FullyReserved(s.intents[g]) ==> s.intents[g].solverEvm == Some(solverEvm)
    ensures Kept(s, Filled1(env, s, b, solver, solverEvm, g, amount), g)
  {
    DeliveriesSnoc(s.deliveries, Delivery(g, s.intents[g].destAsset, solver, s.intents[g].recipient, amount), g);
  }

  lemma FilledKept(env: Env, s: State, b: Balances, solver: Address, solverEvm: Word, g: Word, amount: i128, h: Word)
    requires HashInv(s, g) && HashInv(s, h)
    requires g in s.intents && !IsFinalized(s, g) && s.intents[g].status == Locked && amount >= s.intents[g].minDestAmount
    requires FullyReserved(s.intents[g]) ==> s.intents[g].solverEvm == Some(solverEvm)
    ensures Kept(s, Filled1(env, s, b, solver, solverEvm, g, amount), h)
  {
    hide HashInv, Kept;
    if g == h {
      FilledSelf(env, s, b, solver, solverEvm, g, amount);
    } else {
      DeliveriesSnoc(s.deliveries, Delivery(g, s.intents[g].destAsset, solver, s.intents[g].recipient, amount), h);
      UntouchedKept(s, Filled1(env, s, b, solver, solverEvm, g, amount), h);
    }
  }

  lemma DeliverKept(env: Env, s: State, solver: Address, solverEvm: Word, g: Word, amount: i128, h: Word)
    requires SaneClock(env) && HashInv(s, g) && HashInv(s, h)
    requires DeliverIntent(env, s, solver, solverEvm, g, amount).Ok?
    ensures Kept(s, DeliverIntent(env, s, solver, solverEvm, g, amount).value, h)
  {
    hide HashInv, Kept, Transfer, ValidateFill, SaneClock, FullyReserved;
    ValidFill(env, s, solver, solverEvm, g, amount);
    var rec := s.intents[g];
    var b := Transfer(env, s.balances, rec.destAsset, solver, rec.recipient, amount).value;
    FilledKept(env, s, b, solver, solverEvm, g, amount, h);
    assert DeliverIntent(env, s, solver, solverEvm, g, amount).value == Filled1(env, s, b, solver, solverEvm, g, amount);
  }

  /** The state once the confirmation has been sent and recorded. */
  function Confirmed1(env: Env, s: State, to: Word, g: Word): State
    requires g in s.intents && s.intents[g].solver.Some? && s.intents[g].solverEvm.Some?
  {
    var rec := s.intents[g];
    MarkConfirmed(env, s.(outbox := s.outbox + [Packet(rec.srcEid, to, ConfirmationPayload(rec, rec.solverEvm.value))]),
                  g, rec, rec.solver.value)
  }

  lemma ConfirmationMentions(s: State, to: Word, g: Word, h: Word)
    requires HashInv(s, g) && g in s.intents && s.intents[g].solverEvm.Some?
    ensures var rec := s.intents[g]; var p := Packet(rec.srcEid, to, ConfirmationPayload(rec, rec.solverEvm.value));
      MessagesOf(s.outbox + [p], h) == MessagesOf(s.outbox, h) + if g == h then [(rec.srcEid, p.payload)] else []
  {
    hide Mentions, EncodeFillConfirmed, MessagesOf;
    var rec := s.intents[g];
    var p := Packet(rec.srcEid, to, ConfirmationPayload(rec, rec.solverEvm.value));
    MessagesSnoc(s.outbox, p, h);
    PayloadsMention(g, rec.solverEvm.value, rec.fillAmount, rec.fillLedger, 0, rec.srcEid, to, h);
  }

  lemma ConfirmedSelf(env: Env, s: State, to: Word, g: Word)
    requires HashInv(s, g) && g in s.intents && s.intents[g].status == Filled
    ensures Kept(s, Confirmed1(env, s, to, g), g)
  {
    ConfirmationMentions(s, to, g, g);
  }

  lemma ConfirmedKept(env: Env, s: State, to: Word, g: Word, h: Word)
    requires HashInv(s, g) && HashInv(s, h) && g in s.intents && s.intents[g].status == Filled
    ensures s.intents[g].solver.Some? && s.intents[g].solverEvm.Some?
    ensures Kept(s, Confirmed1(env, s, to, g), h)
  {
    assert s.intents[g].solver.Some? && s.intents[g].solverEvm.Some?;
    hide HashInv, Kept;
    if g == h {
      ConfirmedSelf(env, s, to, g);
    } else {
      ConfirmationMentions(s, to, g, h);
      UntouchedKept(s, Confirmed1(env, s, to, g), h);
    }
  }

  lemma ConfirmKept(env: Env, s: State, caller: Address, g: Word, lzFee: i128, h: Word)
    requires HashInv(s, g) && HashInv(s, h)
    requires DispatchConfirmation(env, s, caller, g, lzFee).Ok?
    ensures Kept(s, DispatchConfirmation(env, s, caller, g, lzFee).value, h)
  {
    hide HashInv, Kept, PayReward, MarkConfirmed;
    var rec := s.intents[g];
    ConfirmedKept(env, s, s.cfg.peers[rec.srcEid], g, h);
    var s2 := Confirmed1(env, s, s.cfg.peers[rec.srcEid], g);
    var due := caller != rec.solver.value && SatSub(env.sequence, rec.fillLedger) >= DISPATCH_REWARD_GRACE_LEDGERS;
    RewardKeeps(env, s2, caller, s2.cfg.dispatchKeeperReward, due);
    KeptThenSame(s, s2, PayReward(env, s2, caller, s2.cfg.dispatchKeeperReward, due).value, h);
  }

  /** Steps of one call compose, as long as the status graph allows both at once. */
  lemma FillKept(env: Env, s: State, solver: Address, solverEvm: Word, g: Word, amount: i128, lzFee: i128, h: Word)
    requires SaneClock(env) && HashInv(s, g) && HashInv(s, h)
    requires FillIntent(env, s, solver, solverEvm, g, amount, lzFee).Ok?
    ensures Kept(s, FillIntent(env, s, solver, solverEvm, g, amount, lzFee).value, h)
  {
    hide HashInv, Kept, Transfer, ValidateFill, SaneClock, FullyReserved, UpdateReputation, EncodeFillConfirmed;
    ValidFill(env, s, solver, solverEvm, g, amount);
    var rec := s.intents[g];
    var b := Transfer(env, s.balances, rec.destAsset, solver, rec.recipient, amount).value;
    var s1 := Filled1(env, s, b, solver, solverEvm, g, amount);
    FilledKept(env, s, b, solver, solverEvm, g, amount, g);
    FilledKept(env, s, b, solver, solverEvm, g, amount, h);
    KeptHolds(s, s1, g);
    KeptHolds(s, s1, h);
    ConfirmedKept(env, s1, s1.cfg.peers[rec.srcEid], g, h);
    var s2 := Confirmed1(env, s1, s1.cfg.peers[rec.srcEid], g);
    FillComposes(s, s1, s2, g, h);
    SameRecordWrites(env, s, b, solver, solverEvm, g, amount);
    assert FillIntent(env, s, solver, solverEvm, g, amount, lzFee).value == s2;
  }

  lemma KeptHolds(s: State, s': State, h: Word)
    requires Kept(s, s', h)
    ensures HashInv(s', h)
  {
  }

  lemma FillComposes(s: State, s1: State, s2: State, g: Word, h: Word)
    requires Kept(s, s1, h) && Kept(s1, s2, h)
    requires Status(s, h) == Status(s1, h) || Status(s, h) == Some(Locked)
    ensures Kept(s, s2, h)
  {
  }

  /** `fill_intent` writes the record once where the two-step path writes it twice. */
  lemma SameRecordWrites(env: Env, s: State, b: Balances, solver: Address, solverEvm: Word, g: Word, amount: i128)
    requires g in s.intents
    ensures var rec := FilledRecord(env, s.intents[g], solver, solverEvm, amount);
      s.intents[g := rec][g := rec.(status := ConfirmationSent)] == s.intents[g := rec.(status := ConfirmationSent)]
  {
  }

  lemma CancelledSelf(s: State, to: Word, g: Word, notify: bool)
    requires HashInv(s, g) && g in s.intents && !IsFinalized(s, g)
    ensures var p := Packet(s.intents[g].srcEid, to, EncodeCancel(g, CANCEL_REASON_EXPIRED));
      Kept(s, MarkCancelled(s, g).(outbox := s.outbox + if notify then [p] else []), g)
  {
    hide Mentions, EncodeCancel;
    var p := Packet(s.intents[g].srcEid, to, EncodeCancel(g, CANCEL_REASON_EXPIRED));
    MessagesSnoc(s.outbox, p, g);
    PayloadsMention(g, g, 0, 0, CANCEL_REASON_EXPIRED, s.intents[g].srcEid, to, g);
    assert s.outbox + [] == s.outbox;
  }

  lemma CancelledKept(s: State, to: Word, g: Word, notify: bool, h: Word)
    requires HashInv(s, g) && HashInv(s, h) && g in s.intents && !IsFinalized(s, g)
    ensures var p := Packet(s.intents[g].srcEid, to, EncodeCancel(g, CANCEL_REASON_EXPIRED));
      Kept(s, MarkCancelled(s, g).(outbox := s.outbox + if notify then [p] else []), h)
  {
    hide HashInv, Kept;
    if g == h {
      CancelledSelf(s, to, g, notify);
    } else {
      var p := Packet(s.intents[g].srcEid, to, EncodeCancel(g, CANCEL_REASON_EXPIRED));
      MessagesSnoc(s.outbox, p, h);
      PayloadsMention(g, g, 0, 0, CANCEL_REASON_EXPIRED, s.intents[g].srcEid, to, h);
      assert s.outbox + [] == s.outbox;
      UntouchedKept(s, MarkCancelled(s, g).(outbox := s.outbox + if notify then [p] else []), h);
    }
  }

  lemma OpenForCancel(env: Env, s: State, caller: Address, g: Word, lzFee: i128)
    requires HashInv(s, g) && CancelExpiredIntent(env, s, caller, g, lzFee).Ok?
    ensures g in s.intents && s.intents[g].intentHash == g && !IsFinalized(s, g)
    ensures s.intents[g].srcEid in s.cfg.peers
    ensures var rec := s.intents[g];
      var sent := MarkCancelled(s, g).(outbox := s.outbox + [Packet(rec.srcEid, s.cfg.peers[rec.srcEid], EncodeCancel(g, CANCEL_REASON_EXPIRED))]);
      PayReward(env, sent, caller, s.cfg.keeperReward, true) == CancelExpiredIntent(env, s, caller, g, lzFee)
  {
    hide DeliveriesAgree, MessagesAgree, EncodeCancel, PayReward;
  }

  lemma CancelExpiredKept(env: Env, s: State, caller: Address, g: Word, lzFee: i128, h: Word)
    requires HashInv(s, g) && HashInv(s, h)
    requires CancelExpiredIntent(env, s, caller, g, lzFee).Ok?
    ensures Kept(s, CancelExpiredIntent(env, s, caller, g, lzFee).value, h)
  {
    hide HashInv, Kept, PayReward, EncodeCancel, CancelExpiredIntent;
    OpenForCancel(env, s, caller, g, lzFee);
    var to := s.cfg.peers[s.intents[g].srcEid];
    CancelledKept(s, to, g, true, h);
    var sent := MarkCancelled(s, g).(outbox := s.outbox + [Packet(s.intents[g].srcEid, to, EncodeCancel(g, CANCEL_REASON_EXPIRED))]);
    RewardKeeps(env, sent, caller, s.cfg.keeperReward, true);
    KeptThenSame(s, sent, PayReward(env, sent, caller, s.cfg.keeperReward, true).value, h);
  }

  lemma NewIntentKept(s: State, g: Word, rec: IntentRecord, h: Word)
    requires HashInv(s, h) && g !in s.intents && !IsFinalized(s, g)
    requires rec.intentHash == g && rec.minDestAmount > 0 && rec.status == Locked
    ensures Kept(s, s.(intents := s.intents[g := rec]), h)
  {
    hide MessagesOf, DeliveriesOf, EncodeCancel, ConfirmationPayload;
    var s' := s.(intents := s.intents[g := rec]);
    if g != h { UntouchedKept(s, s', h); }
  }

  lemma RegisteredKept(env: Env, s: State, srcEid: Eid, fi: FillInstruction, h: Word)
    requires HashInv(s, h)
    requires OnFillInstruction(env, s, srcEid, fi).Ok?
    ensures Kept(s, OnFillInstruction(env, s, srcEid, fi).value, h)
  {
    hide EnforceValueCaps, HashInv, Kept;
    var s' := OnFillInstruction(env, s, srcEid, fi).value;
    var s1 := s.(caps := s'.caps);
    SameIntentsKept(s, s1, h);
    if s' != s1 {
      var g := fi.intentHash;
      KeptHolds(s, s1, h);
      NewIntentKept(s1, g, NewRecord(env, srcEid, fi), h);
      SameThenKept(s, s1, s', h);
    }
  }

  lemma TombstoneKept(s: State, g: Word, h: Word)
    requires HashInv(s, h) && g !in s.intents
    ensures Kept(s, s.(cancelled := s.cancelled + {g}), h)
  {
    var s' := s.(cancelled := s.cancelled + {g});
    if g != h { UntouchedKept(s, s', h); }
  }

  lemma CancelInboundKept(s: State, g: Word, h: Word)
    requires HashInv(s, g) && HashInv(s, h)
    ensures Kept(s, OnCancelInbound(s, g), h)
  {
    hide HashInv, Kept, EncodeCancel;
    if IsFinalized(s, g) || (g in s.intents && s.intents[g].status != Locked) {
      SameIntentsKept(s, s, h);
    } else if g in s.intents {
      CancelledKept(s, g, g, false, h);
      assert s.outbox + [] == s.outbox;
    } else {
      TombstoneKept(s, g, h);
    }
  }

  lemma InboundKept(env: Env, s: State, origin: Origin, m: LzMessage, h: Word)
    requires Inv(s)
    requires ApplyInbound(env, s, origin, m).Ok?
    ensures Kept(s, ApplyInbound(env, s, origin, m).value, h)
  {
    var s1 := ConsumeNonce(s, origin.srcEid, origin.nonce).value;
    var s2 := ApplyInbound(env, s, origin, m).value;
    assert SameIntents(s, s1);
    SameIntentsInv(s, s1);
    InvAt(s1, h);
    match m
    case FillMsg(fi) =>
      RegisteredKept(env, s1, origin.srcEid, fi, h);
      SameThenKept(s, s1, s2, h);
    case CancelMsg(g, _) =>
      InvAt(s1, g);
      CancelInboundKept(s1, g, h);
      SameThenKept(s, s1, s2, h);
  }

  lemma SameThenKept(s: State, s1: State, s2: State, h: Word)
    requires SameIntents(s, s1) && Kept(s1, s2, h)
    ensures Kept(s, s2, h)
  {
  }

  /** The invariant, of every intent hash at once. */
  ghost predicate Inv(s: State) {
    forall h: Word :: HashInv(s, h)
  }

  lemma InvAt(s: State, h: Word)
    requires Inv(s)
    ensures HashInv(s, h)
  {
  }

  lemma SameIntentsInv(s: State, s': State)
    requires Inv(s) && SameIntents(s, s')
    ensures Inv(s')
  {
    forall h: Word ensures HashInv(s', h) { InvAt(s, h); SameIntentsKept(s, s', h); }
  }

  /** Whatever an invocation does, for every intent it keeps the invariant and moves forward. */
  lemma ExecuteKept(env: Env, s: State, c: Call, h: Word)
    requires SaneClock(env) && Inv(s) && Execute(env, s, c).Ok?
    ensures Kept(s, Execute(env, s, c).value, h)
  {
    hide Kept, HashInv, DeliverIntent, FillIntent, DispatchConfirmation, CancelExpiredIntent, ApplyInbound, SaneClock;
    InvAt(s, h);
    match c
    case Deliver(solver, solverEvm, g, amount) => InvAt(s, g); DeliverKept(env, s, solver, solverEvm, g, amount, h);
    case Confirm(caller, g, lzFee) => InvAt(s, g); ConfirmKept(env, s, caller, g, lzFee, h);
    case Fill(solver, solverEvm, g, amount, lzFee) => InvAt(s, g); FillKept(env, s, solver, solverEvm, g, amount, lzFee, h);
    case CancelExpired(caller, g, lzFee) => InvAt(s, g); CancelExpiredKept(env, s, caller, g, lzFee, h);
    case Receive(origin, m) => InboundKept(env, s, origin, m, h);
    case ReceiveBytes(origin, bytes) =>
      hide DecodeMessage;
      DecodedShape(bytes);
      InboundKept(env, s, origin, ResolveMessage(env, s.cfg, DecodeMessage(bytes).value).value, h);
    case Prune(eid) => SameIntentsKept(s, PruneWords(s, eid).value, h);
    case ResetWindow => SameIntentsKept(s, ResetCap(env, s).value, h);
  }

  // --- Whole runs -------------------------------------------------------------------

  /** An invocation, an admin changing settings, or token balances moving elsewhere. */
  datatype Event =
    | Invoked(env: Env, call: Call)
    | Admin(cfg: Config, caps: CapState)
    | Tokens(balances: Balances)

  ghost function Step(s: State, e: Event): State {
    match e
    case Invoked(env, c) => Commit(env, s, c)
    case Admin(cfg, caps) => s.(cfg := cfg, caps := caps)
    case Tokens(balances) => s.(balances := balances)
  }

  predicate SaneEvent(e: Event) {
    e.Invoked? ==> SaneClock(e.env)
  }

  lemma StepKept(s: State, e: Event, h: Word)
    requires SaneEvent(e) && Inv(s)
    ensures Kept(s, Step(s, e), h)
  {
    hide Kept, HashInv, Execute;
    InvAt(s, h);
    if e.Invoked? && Execute(e.env, s, e.call).Ok? {
      ExecuteKept(e.env, s, e.call, h);
    } else {
      SameIntentsKept(s, Step(s, e), h);
    }
  }

  ghost function Run(s: State, es: seq<Event>): State {
    if es == [] then s else Step(Run(s, es[..|es| - 1]), es[|es| - 1])
  }

  ghost predicate SaneRun(es: seq<Event>) {
    forall e <- es :: SaneEvent(e)
  }

  /** Before the first message: no intents, nothing delivered, nothing sent. */
  predicate Initial(s: State) {
    && s.intents == map[] && s.settled == {} && s.cancelled == {} && s.confirmationSent == {}
    && s.deliveries == [] && s.outbox == []
  }

  lemma StepInv(s: State, e: Event)
    requires SaneEvent(e) && Inv(s)
    ensures Inv(Step(s, e))
  {
    forall h: Word ensures HashInv(Step(s, e), h) {
      StepKept(s, e, h);
      KeptHolds(s, Step(s, e), h);
    }
  }

  lemma {:induction false} RunInv(s: State, es: seq<Event>)
    requires Inv(s) && SaneRun(es)
    ensures Inv(Run(s, es))
  {
    if es != [] {
      var m := |es| - 1;
      RunInv(s, es[..m]);
      StepInv(Run(s, es[..m]), es[m]);
    }
  }

  /** Every reachable state satisfies the invariant, whatever happened and in whatever order. */
  lemma {:induction false} ReachableInv(s: State, es: seq<Event>)
    requires Initial(s) && SaneRun(es)
    ensures Inv(Run(s, es))
  {
    forall h: Word ensures HashInv(s, h) { }
    RunInv(s, es);
  }

  /** The closure of `StatusMoves`. */
  predicate StatusReaches(a: Option<IntentStatus>, b: Option<IntentStatus>) {
    || a == b || a == None
    || (a == Some(Locked) && b.Some?)
    || (a == Some(Filled) && b == Some(ConfirmationSent))
  }

  predicate Later(s: State, s': State, h: Word) {
    && s.deliveries <= s'.deliveries && s.outbox <= s'.outbox
    && StatusReaches(Status(s, h), Status(s', h))
    && (h in s.intents ==> h in s'.intents && SameTerms(s.intents[h], s'.intents[h])
                           && (FullyReserved(s.intents[h]) ==> s'.intents[h].solverEvm == s.intents[h].solverEvm))
  }

  lemma LaterStep(s: State, s1: State, s2: State, h: Word)
    requires Later(s, s1, h) && Kept(s1, s2, h)
    ensures Later(s, s2, h)
  {
    hide HashInv, Status;
  }

  /** Status only ever goes None, Locked, Filled, ConfirmationSent, or off to Cancelled; terms never change. */
  lemma {:induction false} RunMovesForward(s: State, es: seq<Event>, h: Word)
    requires Inv(s) && SaneRun(es)
    ensures Later(s, Run(s, es), h)
  {
    if es != [] {
      var m := |es| - 1;
      RunMovesForward(s, es[..m], h);
      RunInv(s, es[..m]);
      StepKept(Run(s, es[..m]), es[m], h);
      LaterStep(s, Run(s, es[..m]), Run(s, es), h);
    }
  }

  /** `status()` and the stored record say the same, and only tombstones have no record. */
  lemma {:induction false} StatusIsRecorded(s: State, es: seq<Event>, h: Word)
    requires Initial(s) && SaneRun(es)
    ensures var t := Run(s, es);
      && (h in t.intents ==> Status(t, h) == Some(t.intents[h].status))
      && (h !in t.intents ==> Status(t, h) in {None, Some(Cancelled)})
  {
    ReachableInv(s, es);
    InvAt(Run(s, es), h);
  }

  /** At most one transfer per intent, to its recipient, in its asset, of at least its minimum. */
  lemma {:induction false} DeliveredOnceInFull(s: State, es: seq<Event>, h: Word)
    requires Initial(s) && SaneRun(es)
    ensures var t := Run(s, es); var ds := DeliveriesOf(t.deliveries, h);
      && |ds| <= 1 && (|ds| == 1 <==> Status(t, h) in {Some(Filled), Some(ConfirmationSent)})
      && forall d <- ds :: h in t.intents && d.to == t.intents[h].recipient && d.token == t.intents[h].destAsset
                           && d.amount >= t.intents[h].minDestAmount > 0
  {
    ReachableInv(s, es);
    InvAt(Run(s, es), h);
  }

  /** At most one outgoing message per intent, back to where it came from; a confirmation only of a delivery. */
  lemma {:induction false} OneMessagePerIntent(s: State, es: seq<Event>, h: Word)
    requires Initial(s) && SaneRun(es)
    ensures var t := Run(s, es); var sent := MessagesOf(t.outbox, h);
      && |sent| <= 1
      && forall m <- sent :: h in t.intents && m.0 == t.intents[h].srcEid && |m.1| >= 2
           && (m.1[1] == MSG_FILL_CONFIRMED ==> |DeliveriesOf(t.deliveries, h)| == 1 && Status(t, h) == Some(ConfirmationSent))
           && (m.1[1] != MSG_FILL_CONFIRMED ==> |DeliveriesOf(t.deliveries, h)| == 0 && Status(t, h) == Some(Cancelled))
  {
    hide BigEndian, MessagesOf, DeliveriesOf;
    ReachableInv(s, es);
    InvAt(Run(s, es), h);
  }
}
