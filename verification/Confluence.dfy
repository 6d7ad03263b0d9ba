/**
 * Inbound messages arrive in any order. With the value caps off, nothing paused and one
 * ledger's environment, the statuses they leave depend only on which messages arrived.
 */
module Confluence {
  import opened Prelude
  import opened Types
  import opened Nonces
  import opened ValueCaps
  import opened Settlement
  import opened SettlementSafety

  datatype Inbound = Inbound(origin: Origin, message: LzMessage)

  function Receive1(env: Env, s: State, i: Inbound): State {
    match LzReceive(env, s, i.origin, i.message)
    case Ok(s') => s'
    case Err(_) => s
  }

  function ReceiveAll(env: Env, s: State, ms: seq<Inbound>): State {
    if ms == [] then s else Receive1(env, ReceiveAll(env, s, ms[..|ms| - 1]), ms[|ms| - 1])
  }

  predicate CapsOff(c: CapState) {
    (c.maxIntentAmount.None? || c.maxIntentAmount.value <= 0) && !c.WindowOn()
  }

  predicate Open(s: State) {
    CapsOff(s.caps) && !s.cfg.paused && s.cfg.pausedEids == {}
  }

  /** No nonce is used twice, and none has been used before. */
  predicate FreshNonces(s: State, ms: seq<Inbound>) {
    && (forall m <- ms :: m.origin.nonce >= 1 && !Consumed(s.nonces, m.origin.srcEid, m.origin.nonce))
    && (forall i, j :: 0 <= i < j < |ms| ==> SlotOf(ms[i]) != SlotOf(ms[j]))
  }

  function SlotOf(m: Inbound): (Eid, u64) {
    (m.origin.srcEid, m.origin.nonce)
  }

  // --- What a message does depends on the message -----------------------------------

  predicate Cancels(env: Env, s: State, m: Inbound, h: Word) {
    m.message.CancelMsg? && m.message.intentHash == h && AuthorizeInbound(env, s, m.origin).None?
  }

  predicate Registers(env: Env, s: State, m: Inbound, h: Word) {
    && m.message.FillMsg? && m.message.fi.intentHash == h && AuthorizeInbound(env, s, m.origin).None?
    && m.message.fi.minDestAmount > 0 && m.message.fi.deadline <= SatAdd64(env.now, MAX_DEADLINE_HORIZON)
  }

  ghost predicate SomeCancels(env: Env, s: State, ms: seq<Inbound>, h: Word) {
    exists m <- ms :: Cancels(env, s, m, h)
  }

  ghost predicate SomeRegisters(env: Env, s: State, ms: seq<Inbound>, h: Word) {
    exists m <- ms :: Registers(env, s, m, h)
  }

  /** The status a set of messages leaves, however they were ordered. */
  ghost function FinalStatus(env: Env, s: State, ms: seq<Inbound>, h: Word): Option<IntentStatus> {
    if IsFinalized(s, h) then Status(s, h)
    else if SomeCancels(env, s, ms, h) then Some(Cancelled)
    else if h in s.intents || SomeRegisters(env, s, ms, h) then Some(Locked)
    else None
  }

  /** What inbound messages never change. */
  predicate SameSettings(s: State, t: State) {
    s.cfg == t.cfg && s.caps == t.caps
  }

  /** `m` is the last of `ms`. */
  lemma Snoc(env: Env, s: State, ms: seq<Inbound>, m: Inbound, h: Word)
    ensures SomeCancels(env, s, ms + [m], h) <==> SomeCancels(env, s, ms, h) || Cancels(env, s, m, h)
    ensures SomeRegisters(env, s, ms + [m], h) <==> SomeRegisters(env, s, ms, h) || Registers(env, s, m, h)
  {
    hide Cancels, Registers;
    assert forall x :: x in ms + [m] <==> x in ms || x == m;
  }

  lemma NoCaps(c: CapState, amount: i128, now: u64)
    requires CapsOff(c)
    ensures EnforceValueCaps(c, amount, now) == Ok((c, true))
  {
  }

  ghost predicate Effect(env: Env, s: State, m: Inbound, t: State, h: Word) {
    && SameSettings(s, t)
    && (IsFinalized(t, h) <==> IsFinalized(s, h) || Cancels(env, s, m, h))
    && (IsFinalized(s, h) ==> Status(t, h) == Status(s, h))
    && (!IsFinalized(s, h) && Cancels(env, s, m, h) ==> Status(t, h) == Some(Cancelled))
    && (!IsFinalized(t, h) ==> (h in t.intents <==> h in s.intents || Registers(env, s, m, h)))
  }

  lemma CancelEffect(env: Env, s: State, origin: Origin, g: Word, reason: byte, h: Word)
    requires HashInv(s, g) && AuthorizeInbound(env, s, origin).None?
    ensures Effect(env, s, Inbound(origin, CancelMsg(g, reason)), OnCancelInbound(s, g), h)
  {
    hide DeliveriesAgree, MessagesAgree, AuthorizeInbound;
  }

  lemma FillEffect(env: Env, s: State, origin: Origin, fi: FillInstruction, h: Word)
    requires CapsOff(s.caps) && AuthorizeInbound(env, s, origin).None?
    ensures match OnFillInstruction(env, s, origin.srcEid, fi)
      case Ok(t) => Effect(env, s, Inbound(origin, FillMsg(fi)), t, h)
      case Err(_) => Effect(env, s, Inbound(origin, FillMsg(fi)), s, h)
  {
    hide EnforceValueCaps, CapsOff;
    NoCaps(s.caps, fi.minDestAmount, env.now);
  }

  lemma NoncesAside(env: Env, s: State, n: NonceState, m: Inbound, t: State, h: Word)
    requires Effect(env, s.(nonces := n), m, t, h)
    ensures Effect(env, s, m, t, h)
  {
  }

  lemma NoEffect(env: Env, s: State, n: NonceState, m: Inbound, h: Word)
    requires Effect(env, s, m, s.(nonces := n), h)
    ensures Effect(env, s, m, s, h)
  {
  }

  /** One message on an unconsumed nonce. */
  lemma OneMessage(env: Env, s: State, m: Inbound, h: Word)
    requires Open(s) && Inv(s)
    requires m.origin.nonce >= 1 && !Consumed(s.nonces, m.origin.srcEid, m.origin.nonce)
    ensures Effect(env, s, m, Receive1(env, s, m), h)
  {
    AcceptIffNotConsumed(s.nonces, m.origin.srcEid, m.origin.nonce);
    if AuthorizeInbound(env, s, m.origin).None? {
      var n := AcceptNonce(s.nonces, m.origin.srcEid, m.origin.nonce).value;
      var s1 := s.(nonces := n);
      hide Effect, AcceptNonce, Consumed, OnFillInstruction, OnCancelInbound, HashInv, CapsOff;
      match m.message
      case FillMsg(fi) =>
        FillEffect(env, s1, m.origin, fi, h);
        if OnFillInstruction(env, s1, m.origin.srcEid, fi).Ok? {
          NoncesAside(env, s, n, m, OnFillInstruction(env, s1, m.origin.srcEid, fi).value, h);
        } else {
          NoncesAside(env, s, n, m, s1, h);
          NoEffect(env, s, n, m, h);
        }
      case CancelMsg(g, reason) =>
        SameIntentsInv(s, s1);
        InvAt(s1, g);
        CancelEffect(env, s1, m.origin, g, reason, h);
        NoncesAside(env, s, n, m, OnCancelInbound(s1, g), h);
    }
  }

  lemma OneMessageNonces(env: Env, s: State, m: Inbound, e: Eid, n: u64)
    ensures Consumed(Receive1(env, s, m).nonces, e, n) ==> Consumed(s.nonces, e, n) || SlotOf(m) == (e, n)
  {
    hide EnforceValueCaps, AcceptNonce, Consumed;
    if AcceptNonce(s.nonces, m.origin.srcEid, m.origin.nonce).Some? {
      AcceptConsumes(s.nonces, m.origin.srcEid, m.origin.nonce, e, n);
    }
  }

  lemma {:induction false} NoncesStayFresh(env: Env, s: State, ms: seq<Inbound>, e: Eid, n: u64)
    requires !Consumed(s.nonces, e, n) && forall m <- ms :: SlotOf(m) != (e, n)
    ensures !Consumed(ReceiveAll(env, s, ms).nonces, e, n)
  {
    if ms != [] {
      var k := |ms| - 1;
      NoncesStayFresh(env, s, ms[..k], e, n);
      OneMessageNonces(env, ReceiveAll(env, s, ms[..k]), ms[k], e, n);
    }
  }

  lemma OneMessageInv(env: Env, s: State, m: Inbound)
    requires Inv(s)
    ensures Inv(Receive1(env, s, m))
  {
    hide HashInv, Kept, ApplyInbound;
    if LzReceive(env, s, m.origin, m.message).Ok? {
      forall h: Word ensures HashInv(Receive1(env, s, m), h) {
        InboundKept(env, s, m.origin, m.message, h);
        KeptHolds(s, Receive1(env, s, m), h);
      }
    }
  }

  lemma SameMeaning(env: Env, s: State, t: State, m: Inbound, h: Word)
    requires SameSettings(s, t)
    ensures Cancels(env, s, m, h) == Cancels(env, t, m, h) && Registers(env, s, m, h) == Registers(env, t, m, h)
    ensures Open(s) == Open(t)
  {
  }

  lemma FreshPrefix(s: State, ms: seq<Inbound>, k: nat)
    requires FreshNonces(s, ms) && k < |ms|
    ensures FreshNonces(s, ms[..k])
    ensures forall m <- ms[..k] :: SlotOf(m) != SlotOf(ms[k])
  {
  }

  /** After any sequence of messages, finalization and registration are those of the closed form. */
  ghost predicate Reached(env: Env, s: State, ms: seq<Inbound>, t: State, h: Word) {
    && SameSettings(s, t)
    && (IsFinalized(t, h) <==> IsFinalized(s, h) || SomeCancels(env, s, ms, h))
    && (IsFinalized(s, h) ==> Status(t, h) == Status(s, h))
    && (!IsFinalized(s, h) && IsFinalized(t, h) ==> Status(t, h) == Some(Cancelled))
    && (!IsFinalized(t, h) ==> (h in t.intents <==> h in s.intents || SomeRegisters(env, s, ms, h)))
  }

  lemma {:induction false} AllMessages(env: Env, s: State, ms: seq<Inbound>, h: Word)
    requires Open(s) && Inv(s) && FreshNonces(s, ms)
    ensures Inv(ReceiveAll(env, s, ms)) && Reached(env, s, ms, ReceiveAll(env, s, ms), h)
  {
    if ms != [] {
      var k := |ms| - 1;
      var m, t := ms[k], ReceiveAll(env, s, ms[..k]);
      FreshPrefix(s, ms, k);
      AllMessages(env, s, ms[..k], h);
      OneMessageInv(env, t, m);
      NoncesStayFresh(env, s, ms[..k], m.origin.srcEid, m.origin.nonce);
      SameMeaning(env, s, t, m, h);
      OneMessage(env, t, m, h);
      Snoc(env, s, ms[..k], m, h);
      assert ms == ms[..k] + [m];
      assert Reached(env, s, ms, Receive1(env, t, m), h) by {
        hide SomeCancels, SomeRegisters, Cancels, Registers, Receive1, Inv, HashInv, Open, FreshNonces;
      }
    }
  }

  /** The closed form is what the contract's `status` reports. */
  lemma {:induction false} StatusClosedForm(env: Env, s: State, ms: seq<Inbound>, h: Word)
    requires Open(s) && Inv(s) && FreshNonces(s, ms)
    ensures Status(ReceiveAll(env, s, ms), h) == FinalStatus(env, s, ms, h)
  {
    hide SomeCancels, SomeRegisters, DeliveriesAgree, MessagesAgree, ReceiveAll, Open, Inv;
    AllMessages(env, s, ms, h);
    var t := ReceiveAll(env, s, ms);
    InvAt(t, h);
  }

  /** Any two orders of the same messages end in the same status for every intent. */
  lemma {:induction false} OrderDoesNotMatter(env: Env, s: State, ms: seq<Inbound>, ns: seq<Inbound>, h: Word)
    requires Open(s) && Inv(s) && FreshNonces(s, ms) && multiset(ms) == multiset(ns)
    ensures Status(ReceiveAll(env, s, ms), h) == Status(ReceiveAll(env, s, ns), h)
  {
    hide Cancels, Registers, ReceiveAll;
    SameMembers(ms, ns);
    FreshUnderPermutation(s, ms, ns);
    StatusClosedForm(env, s, ms, h);
    StatusClosedForm(env, s, ns, h);
  }

  lemma {:induction false} SameMembers(ms: seq<Inbound>, ns: seq<Inbound>)
    requires multiset(ms) == multiset(ns)
    ensures forall m :: m in ms <==> m in ns
  {
    forall m ensures m in ms <==> m in ns {
      assert m in ms <==> m in multiset(ms);
      assert m in ns <==> m in multiset(ns);
    }
  }

  lemma {:induction false} Repeated(ms: seq<Inbound>, i: nat, j: nat)
    requires i < j < |ms| && ms[i] == ms[j]
    ensures multiset(ms)[ms[i]] >= 2
  {
    assert ms == ms[..j] + [ms[j]] + ms[j + 1..];
    assert ms[i] == ms[..j][i];
    assert ms[i] in multiset(ms[..j]);
  }

  lemma {:induction false} NotRepeated(ms: seq<Inbound>, x: Inbound)
    requires forall i, j :: 0 <= i < j < |ms| ==> ms[i] != ms[j]
    ensures multiset(ms)[x] <= 1
  {
    if ms != [] {
      var k := |ms| - 1;
      NotRepeated(ms[..k], x);
      assert ms == ms[..k] + [ms[k]];
      if x == ms[k] {
        assert x !in ms[..k];
        assert x !in multiset(ms[..k]);
      }
    }
  }

  lemma {:induction false} FreshUnderPermutation(s: State, ms: seq<Inbound>, ns: seq<Inbound>)
    requires FreshNonces(s, ms) && multiset(ms) == multiset(ns)
    ensures FreshNonces(s, ns)
  {
    SameMembers(ms, ns);
    forall i, j | 0 <= i < j < |ns| ensures SlotOf(ns[i]) != SlotOf(ns[j]) {
      assert ns[i] in ms && ns[j] in ms;
      if ns[i] == ns[j] {
        Repeated(ns, i, j);
        NotRepeated(ms, ns[i]);
      }
    }
  }

  // --- A cancel wins -------------------------------------------------------------------

  /** One authorized cancel, before or after its registration, and the intent ends cancelled. */
  lemma {:induction false} CancelWins(env: Env, s: State, ms: seq<Inbound>, h: Word)
    requires Open(s) && Inv(s) && FreshNonces(s, ms)
    requires h !in s.settled && SomeCancels(env, s, ms, h)
    ensures Status(ReceiveAll(env, s, ms), h) == Some(Cancelled)
  {
    hide DeliveriesAgree, MessagesAgree, ReceiveAll, SomeCancels, SomeRegisters;
    StatusClosedForm(env, s, ms, h);
    InvAt(s, h);
  }

  lemma CancelledRefusesFills(t: State, env: Env, solver: Address, solverEvm: Word, h: Word, amount: i128, lzFee: i128)
    requires HashInv(t, h) && Status(t, h) == Some(Cancelled)
    ensures DeliveriesOf(t.deliveries, h) == []
    ensures DeliverIntent(env, t, solver, solverEvm, h, amount).Err? && FillIntent(env, t, solver, solverEvm, h, amount, lzFee).Err?
  {
    hide MessagesAgree, DeliveriesOf, IsEvmAddress;
    assert h in t.cancelled;
    assert ValidateFill(env, t, solver, solverEvm, h, amount).Err?;
  }

  /** And whatever happens from there on, it can never be filled. */
  lemma {:induction false} CancelledNeverFills(s: State, es: seq<Event>, env: Env, solver: Address, solverEvm: Word, h: Word, amount: i128, lzFee: i128)
    requires Inv(s) && SaneRun(es) && Status(s, h) == Some(Cancelled)
    ensures var t := SettlementSafety.Run(s, es);
      && Status(t, h) == Some(Cancelled) && DeliveriesOf(t.deliveries, h) == []
      && DeliverIntent(env, t, solver, solverEvm, h, amount).Err?
      && FillIntent(env, t, solver, solverEvm, h, amount, lzFee).Err?
  {
    hide DeliverIntent, FillIntent, HashInv, SettlementSafety.Run, Status;
    var t := SettlementSafety.Run(s, es);
    RunMovesForward(s, es, h);
    RunInv(s, es);
    InvAt(t, h);
    CancelledRefusesFills(t, env, solver, solverEvm, h, amount, lzFee);
  }
}
