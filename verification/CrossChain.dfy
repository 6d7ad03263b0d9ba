/**
 * The two chains together: escrow, settlement contract and a network between them that
 * may lose, repeat and reorder messages but not forge them. Whatever happens, a locked
 * intent is still locked, refunded in full, or released once, and then only after its
 * recipient was paid.
 */
module CrossChain {
  import opened Prelude
  import opened Types
  import opened Radix
  import opened Strkey
  import opened Asset
  import opened Messages
  import opened Settlement
  import opened SettlementSafety
  import ValueCaps
  import Escrow

  /** What does not change while the two contracts are wired to each other. */
  datatype Deployment = Deployment(
    evmEid: Eid,
    escrow: Word,
    holder: Escrow.Holder,
    native: Address,
    sac: (seq<int>, seq<byte>) -> Address,
    grace: nat)

  /**
   * `requests` are the FillInstructions the escrow's locks put on the wire; `byCancel`
   * and `byTimeout` say why a lock was refunded; `gifts` is what reached the escrow
   * other than as a lock.
   */
  datatype System = System(
    escrow: Escrow.EscrowState,
    stellar: State,
    requests: map<Word, FillRequest>,
    byCancel: set<Word>,
    byTimeout: map<Word, nat>,
    gifts: nat)

  datatype Action =
    | LockFunds(q: FillRequest, user: Escrow.Holder, amount: nat)
    | RelayFill(env: Env, h: Word, nonce: u64)
    | OnStellar(event: Event)
    | RelayBack(j: nat)
    | TimeOut(h: Word, now: nat)
    | MoveTokens(from: Escrow.Holder, to: Escrow.Holder, amount: nat)

  predicate IsInbound(c: Call) {
    c.Receive? || c.ReceiveBytes?
  }

  ghost predicate SaneEnv(dep: Deployment, env: Env) {
    SaneClock(env) && env.sacAddress == dep.sac
  }

  predicate SaneConfig(dep: Deployment, cfg: Config) {
    && dep.evmEid in cfg.peers && cfg.peers[dep.evmEid] == dep.escrow
    && (cfg.nativeToken.Some? ==> cfg.nativeToken.value == dep.native)
  }

  /** Nobody but the network speaks for the escrow, and nobody but the escrow spends its tokens. */
  ghost predicate Allowed(dep: Deployment, a: Action) {
    match a
    case LockFunds(q, user, _) => |q.intentHash| == 32 && |q.solver| == 20 && q.deadline >= 0 && user != dep.holder
    case RelayFill(env, _, _) => SaneEnv(dep, env)
    case OnStellar(Invoked(env, c)) =>
      SaneEnv(dep, env) && (IsInbound(c) ==> !(c.origin.srcEid == dep.evmEid && c.origin.sender == dep.escrow))
    case OnStellar(Admin(cfg, _)) => SaneConfig(dep, cfg)
    case MoveTokens(from, _, _) => from != dep.holder
    case _ => true
  }

  /** The escrow reads a confirmation's hash and 20-byte solver, a cancel's hash, and nothing else. */
  predicate IsConfirmation(payload: seq<byte>) {
    |payload| == FILL_CONFIRMED_LENGTH && payload[1] == MSG_FILL_CONFIRMED && payload[34..46] == Zeros(12)
  }

  predicate IsCancellation(payload: seq<byte>) {
    |payload| == CANCEL_INTENT_LENGTH && payload[1] == MSG_CANCEL_INTENT
  }

  /** A payout to the escrow itself never leaves it. */
  function GiftIf(dep: Deployment, to: Escrow.Holder, amount: nat): nat {
    if to == dep.holder then amount else 0
  }

  function Arrive(dep: Deployment, sys: System, payload: seq<byte>): System {
    if IsConfirmation(payload) && payload[2..34] in sys.escrow.locks then
      var h: Word := payload[2..34];
      var payee, amount := payload[46..66], sys.escrow.locks[h].amount;
      match Escrow.Release(sys.escrow, h, payee, amount)
      case Ok(e) => sys.(escrow := e, gifts := sys.gifts + GiftIf(dep, payee, amount))
      case Err(_) => sys
    else if IsCancellation(payload) then
      var h: Word := payload[2..34];
      match Escrow.Refund(sys.escrow, h)
      case Ok(e) => sys.(escrow := e, byCancel := sys.byCancel + {h})
      case Err(_) => sys
    else sys
  }

  function RelayedCall(dep: Deployment, q: FillRequest, nonce: u64): Call
    requires FitsTheWire(q)
  {
    ReceiveBytes(Origin(dep.evmEid, dep.escrow, nonce), CanonicalFill(q))
  }

  ghost function Act(dep: Deployment, sys: System, a: Action): System
    requires Allowed(dep, a)
  {
    match a
    case LockFunds(q, user, amount) => (
      match Escrow.Lock(sys.escrow, q.intentHash, user, q.solver, amount, q.deadline)
      case Ok(e) => sys.(escrow := e, requests := if FitsTheWire(q) then sys.requests[q.intentHash := q] else sys.requests)
      case Err(_) => sys
    )
    case RelayFill(env, h, nonce) =>
      if h in sys.requests && FitsTheWire(sys.requests[h])
      then sys.(stellar := Commit(env, sys.stellar, RelayedCall(dep, sys.requests[h], nonce))) else sys
    case OnStellar(event) => sys.(stellar := Step(sys.stellar, event))
    case RelayBack(j) =>
      if j < |sys.stellar.outbox| && sys.stellar.outbox[j].dstEid == dep.evmEid && sys.stellar.outbox[j].receiver == dep.escrow
      then Arrive(dep, sys, sys.stellar.outbox[j].payload) else sys
    case TimeOut(h, now) => (
      match Escrow.CancelExpired(sys.escrow, h, now, dep.grace)
      case Ok(e) => sys.(escrow := e, byTimeout := sys.byTimeout[h := now])
      case Err(_) => sys
    )
    case MoveTokens(from, to, amount) => (
      match Escrow.Transfer(sys.escrow.balances, from, to, amount)
      case Ok(b) => sys.(escrow := sys.escrow.(balances := b), gifts := sys.gifts + GiftIf(dep, to, amount))
      case Err(_) => sys
    )
  }

  // --- What the contract reads on the wire -------------------------------------------

  lemma {:induction false} TrimmedLenPadded(s: seq<byte>, n: nat)
    ensures TrimmedLen(s + Zeros(n)) == TrimmedLen(s)
  {
    if n == 0 {
      assert s + Zeros(0) == s;
    } else {
      TrimmedLenPadded(s, n - 1);
      var p := s + Zeros(n);
      assert p[..|p| - 1] == s + Zeros(n - 1);
    }
  }

  lemma TrimPadded(s: seq<byte>, width: nat)
    requires |s| <= width
    ensures Trim(PadRight(s, width)) == Trim(s)
  {
    TrimmedLenPadded(s, width - |s|);
  }

  lemma ValidIsUnpadded(s: seq<byte>)
    requires |s| <= 56 && IsValidStrkey(Trim(s))
    ensures Trim(s) == s
  {
    StrkeyHasNoNul(Trim(s));
  }

  /** What the decoder makes of the relayer's bytes, when it accepts them. */
  function AsDecoded(q: FillRequest): WireFill
    requires FitsTheWire(q)
  {
    RequestAsWire(q).(destAsset := Trim(q.destAsset))
  }

  lemma DecodedCanonical(q: FillRequest)
    requires FitsTheWire(q) && DecodeMessage(CanonicalFill(q)).Ok?
    ensures DecodeMessage(CanonicalFill(q)) == Ok(WireFillInstruction(AsDecoded(q)))
  {
    hide BigEndian, PadRight, Pow, Num, IsValidStrkey, Parse, Trim, Zeros;
    FillLayoutFields(q.intentHash, q.stellarEid, q.destination, q.destAsset, q.minDestAmount, q.deadline, SolverAsWord(q.solver), 0);
    FieldLimits();
    BigEndianRoundTrip(q.stellarEid, 4);
    BigEndianRoundTrip(q.minDestAmount, 16);
    BigEndianRoundTrip(q.deadline, 8);
    BigEndianRoundTrip(0, 8);
    ZeroSolver(q.solver);
    TrimPadded(q.destination, 56);
    TrimPadded(q.destAsset, 69);
    if IsValidStrkey(Trim(q.destination)) { ValidIsUnpadded(q.destination); }
  }

  /** The token a request's asset identifier stands for. */
  ghost function AssetOf(dep: Deployment, q: FillRequest): Address
    requires FitsTheWire(q)
  {
    match Parse(Trim(q.destAsset))
    case Some(Native) => dep.native
    case Some(Classic(code, issuer)) => dep.sac(code, issuer)
    case Some(Contract) => Trim(q.destAsset)
    case None => []
  }

  /** A record holds a request's own terms, reserved to its deadline for the locking solver. */
  ghost predicate RecordOf(dep: Deployment, q: FillRequest, rec: IntentRecord) {
    && FitsTheWire(q)
    && rec.intentHash == q.intentHash && rec.srcEid == dep.evmEid && rec.recipient == q.destination
    && rec.destAsset == AssetOf(dep, q) && rec.minDestAmount == q.minDestAmount && rec.deadline == q.deadline
    && rec.preferredSolver.None? && rec.solverEvm == Some(SolverAsWord(q.solver)) && rec.reservationExpires == rec.deadline
  }

  lemma RegistersOnly(env: Env, s: State, srcEid: Eid, fi: FillInstruction, h: Word)
    requires OnFillInstruction(env, s, srcEid, fi).Ok?
    requires h !in s.intents && h in OnFillInstruction(env, s, srcEid, fi).value.intents
    ensures h == fi.intentHash
    ensures OnFillInstruction(env, s, srcEid, fi).value.intents[h] == NewRecord(env, srcEid, fi)
  {
    hide ValueCaps.EnforceValueCaps;
  }

  lemma InboundRegisters(env: Env, s: State, origin: Origin, m: LzMessage, h: Word)
    requires ApplyInbound(env, s, origin, m).Ok?
    requires h !in s.intents && h in ApplyInbound(env, s, origin, m).value.intents
    ensures m.FillMsg? && h == m.fi.intentHash
    ensures ApplyInbound(env, s, origin, m).value.intents[h] == NewRecord(env, origin.srcEid, m.fi)
  {
    hide OnFillInstruction;
    if m.FillMsg? {
      RegistersOnly(env, ConsumeNonce(s, origin.srcEid, origin.nonce).value, origin.srcEid, m.fi, h);
    }
  }

  /** Only an authorized inbound message creates a record, and under its own eid. */
  lemma OnlyInboundRegisters(env: Env, s: State, c: Call, h: Word)
    requires Execute(env, s, c).Ok? && h !in s.intents && h in Execute(env, s, c).value.intents
    ensures IsInbound(c) && AuthorizeInbound(env, s, c.origin).None?
    ensures Execute(env, s, c).value.intents[h].srcEid == c.origin.srcEid
  {
    hide ApplyInbound, PruneWords, ResetCap, ValidateFill, Transfer, EncodeFillConfirmed, EncodeCancel, DecodeMessage;
    match c
    case Receive(origin, m) => InboundRegisters(env, s, origin, m, h);
    case ReceiveBytes(origin, bytes) =>
      DecodedShape(bytes);
      InboundRegisters(env, s, origin, ResolveMessage(env, s.cfg, DecodeMessage(bytes).value).value, h);
    case Deliver(solver, solverEvm, g, amount) => ValidFill(env, s, solver, solverEvm, g, amount);
    case Fill(solver, solverEvm, g, amount, _) => ValidFill(env, s, solver, solverEvm, g, amount);
    case Prune(eid) => PruneKeepsIntents(s, eid);
    case ResetWindow => ResetKeepsIntents(env, s);
    case _ =>
  }

  lemma PruneKeepsIntents(s: State, eid: Eid)
    requires PruneWords(s, eid).Ok?
    ensures PruneWords(s, eid).value.intents == s.intents
  {
  }

  lemma ResetKeepsIntents(env: Env, s: State)
    requires ResetCap(env, s).Ok?
    ensures ResetCap(env, s).value.intents == s.intents
  {
  }

  lemma ResolvedRecord(dep: Deployment, env: Env, cfg: Config, q: FillRequest)
    requires SaneEnv(dep, env) && SaneConfig(dep, cfg) && FitsTheWire(q) && WellFormedFill(AsDecoded(q))
    requires ResolveMessage(env, cfg, WireFillInstruction(AsDecoded(q))).Ok?
    ensures var m := ResolveMessage(env, cfg, WireFillInstruction(AsDecoded(q))).value;
      m.FillMsg? && m.fi.intentHash == q.intentHash && RecordOf(dep, q, NewRecord(env, dep.evmEid, m.fi))
  {
    hide SaneClock, Parse, Trim, IsValidStrkey;
  }

  /** A relayed request registers its own terms. */
  lemma RelayedRecord(dep: Deployment, env: Env, s: State, q: FillRequest, nonce: u64, h: Word)
    requires SaneEnv(dep, env) && SaneConfig(dep, s.cfg) && FitsTheWire(q)
    requires Execute(env, s, RelayedCall(dep, q, nonce)).Ok?
    requires h !in s.intents && h in Execute(env, s, RelayedCall(dep, q, nonce)).value.intents
    ensures h == q.intentHash && RecordOf(dep, q, Execute(env, s, RelayedCall(dep, q, nonce)).value.intents[h])
  {
    hide ApplyInbound, DecodeMessage, CanonicalFill, AuthorizeInbound, ResolveMessage, RecordOf, SaneEnv, SaneConfig, NewRecord, AsDecoded;
    DecodedCanonical(q);
    DecodedShape(CanonicalFill(q));
    ResolvedRecord(dep, env, s.cfg, q);
    var m := ResolveMessage(env, s.cfg, WireFillInstruction(AsDecoded(q))).value;
    InboundRegisters(env, s, Origin(dep.evmEid, dep.escrow, nonce), m, h);
  }
}
