/**
 * The settlement contract (lib.rs) as a state machine: what each entrypoint makes of
 * storage, tokens and outgoing messages, or the error it fails with. A failed call
 * changes nothing, since the host rolls the whole invocation back.
 */
module Settlement {
  import opened Prelude
  import opened Types
  import opened Nonces
  import opened ValueCaps
  import opened Asset
  import opened Messages

  const MIN_DISPATCH_WINDOW: u64 := 1800
  const MAX_DEADLINE_HORIZON: u64 := 604800
  const DISPATCH_REWARD_GRACE_LEDGERS: u32 := 360
  const CANCEL_REASON_EXPIRED: byte := 0

  /** Admin-managed instance storage. */
  datatype Config = Config(
    admin: Option<Address>,
    endpoint: Option<Address>,
    peers: map<Eid, Word>,
    paused: bool,
    pausedEids: set<Eid>,
    nativeToken: Option<Address>,
    keeperReward: i128,
    dispatchKeeperReward: i128,
    allowedTokens: set<Address>)

  type Balances = map<(Address, Address), nat>

  datatype State = State(
    self: Address,
    cfg: Config,
    caps: CapState,
    nonces: NonceState,
    intents: map<Word, IntentRecord>,
    settled: set<Word>,
    cancelled: set<Word>,
    confirmationSent: set<Word>,
    reputation: map<Address, Reputation>,
    balances: Balances,
    deliveries: seq<Delivery>,
    outbox: seq<Packet>)

  /** The ledger a call runs in: clock, signatures, and what other contracts answer. */
  datatype Env = Env(
    now: u64,
    sequence: u32,
    auth: set<Address>,
    quote: Packet -> i128,
    sendOk: Packet -> bool,
    transferOk: (Address, Address, Address) -> bool,
    sacAddress: (seq<int>, seq<byte>) -> Address)

  // --- Other contracts --------------------------------------------------------

  function BalanceOf(b: Balances, token: Address, holder: Address): nat {
    if (token, holder) in b then b[(token, holder)] else 0
  }

  /** A token `transfer`; `None` is a trap. */
  function Transfer(env: Env, b: Balances, token: Address, from: Address, to: Address, amount: i128): Option<Balances> {
    if amount < 0 || BalanceOf(b, token, from) < amount || !env.transferOk(token, from, to) then None
    else
      var debited := b[(token, from) := BalanceOf(b, token, from) - amount];
      Some(debited[(token, to) := BalanceOf(debited, token, to) + amount])
  }

  /** `dispatch`: peer, endpoint, quote, send. */
  function Dispatch(env: Env, s: State, dstEid: Eid, payload: seq<byte>, lzFee: i128): Result<State, Error> {
    if dstEid !in s.cfg.peers then Err(UntrustedPeer)
    else if s.cfg.endpoint.None? then Err(NotInitialized)
    else
      var packet := Packet(dstEid, s.cfg.peers[dstEid], payload);
      if lzFee < env.quote(packet) then Err(InsufficientLzFee)
      else if !env.sendOk(packet) then Err(HostTrap)
      else Ok(s.(outbox := s.outbox + [packet]))
  }

  /** A keeper reward out of the contract's own native balance, if one is due and payable. */
  function PayReward(env: Env, s: State, to: Address, reward: i128, due: bool): Result<State, Error> {
    if reward <= 0 || !due || s.cfg.nativeToken.None? then Ok(s)
    else
      match Transfer(env, s.balances, s.cfg.nativeToken.value, s.self, to, reward)
      case None => Err(HostTrap)
      case Some(b) => Ok(s.(balances := b))
  }

  // --- Views ------------------------------------------------------------------

  predicate IsFinalized(s: State, h: Word) {
    h in s.settled || h in s.cancelled
  }

  /** `status`: the durable markers first, the record last. */
  function Status(s: State, h: Word): Option<IntentStatus> {
    if h in s.confirmationSent then Some(ConfirmationSent)
    else if h in s.settled then Some(Filled)
    else if h in s.cancelled then Some(Cancelled)
    else if h in s.intents then Some(s.intents[h].status)
    else None
  }

  // --- Filling ------------------------------------------------------------------

  /** A 20-byte EVM address, not zero, padded to a word on the left. */
  predicate IsEvmAddress(w: Word) {
    (forall i :: 0 <= i < 12 ==> w[i] == 0) && (exists i :: 12 <= i < 32 && w[i] != 0)
  }

  function ValidateFill(env: Env, s: State, solver: Address, solverEvm: Word, h: Word, amount: i128): Result<IntentRecord, Error> {
    if !IsEvmAddress(solverEvm) then Err(InvalidSolverEvm)
    else if IsFinalized(s, h) then Err(IntentFinalized)
    else if h !in s.intents then Err(IntentNotFound)
    else
      var rec := s.intents[h];
      if rec.status != Locked then Err(AlreadyFilled)
      else if SatAdd64(env.now, MIN_DISPATCH_WINDOW) > rec.deadline then Err(IntentExpired)
      else if rec.preferredSolver.Some? && rec.preferredSolver.value != solver && env.now < rec.reservationExpires then Err(ReservedForSolver)
      else if rec.solverEvm.Some? && rec.solverEvm.value != solverEvm && env.now < rec.reservationExpires then Err(ReservedForSolver)
      else if amount <= 0 then Err(InvalidAmount)
      else if amount < rec.minDestAmount then Err(InsufficientFillAmount)
      else Ok(rec)
  }

  function FilledRecord(env: Env, rec: IntentRecord, solver: Address, solverEvm: Word, amount: i128): IntentRecord {
    rec.(status := Filled, solver := Some(solver), solverEvm := Some(solverEvm), fillAmount := amount, fillLedger := env.sequence)
  }

  /** The destination asset moves and the intent is marked settled. */
  function SettleDelivery(env: Env, s: State, h: Word, rec: IntentRecord, solver: Address, amount: i128): Result<State, Error> {
    match Transfer(env, s.balances, rec.destAsset, solver, rec.recipient, amount)
    case None => Err(HostTrap)
    case Some(b) =>
      Ok(s.(settled := s.settled + {h}, balances := b,
            deliveries := s.deliveries + [Delivery(h, rec.destAsset, solver, rec.recipient, amount)]))
  }

  function DeliverIntent(env: Env, s: State, solver: Address, solverEvm: Word, h: Word, amount: i128): Result<State, Error> {
    if solver !in env.auth then Err(HostTrap)
    else if s.cfg.paused then Err(ContractPaused)
    else
      var rec :- ValidateFill(env, s, solver, solverEvm, h, amount);
      var rec' := FilledRecord(env, rec, solver, solverEvm, amount);
      var s1 :- SettleDelivery(env, s, h, rec', solver, amount);
      Ok(s1.(intents := s1.intents[h := rec']))
  }

  function ConfirmationPayload(rec: IntentRecord, solverEvm: Word): seq<byte> {
    EncodeFillConfirmed(rec.intentHash, solverEvm, rec.fillAmount, rec.fillLedger)
  }

  function SatSub(a: nat, b: nat): nat {
    if a < b then 0 else a - b
  }

  /** `update_solver_reputation`; the moving average is 0.9 old + 0.1 new. */
  function UpdateReputation(reputation: map<Address, Reputation>, solver: Address, latency: nat): map<Address, Reputation> {
    var rep := if solver in reputation then reputation[solver] else Reputation(0, 0, 0);
    var ewma := if rep.ewmaLatency == 0 then latency else (rep.ewmaLatency * 9 + latency) / 10;
    reputation[solver := Reputation(SatAdd64(rep.fillCount, 1), SatAdd64(rep.successCount, 1), ewma)]
  }

  /** What follows a successful send: marker, record, reputation. */
  function MarkConfirmed(env: Env, s: State, h: Word, rec: IntentRecord, solver: Address): State {
    s.(confirmationSent := s.confirmationSent + {h},
       intents := s.intents[h := rec.(status := ConfirmationSent)],
       reputation := UpdateReputation(s.reputation, solver, SatSub(env.sequence, rec.fillLedger)))
  }

  function DispatchConfirmation(env: Env, s: State, caller: Address, h: Word, lzFee: i128): Result<State, Error> {
    if caller !in env.auth then Err(HostTrap)
    else if h in s.confirmationSent then Err(IntentFinalized)
    else if h !in s.intents then Err(IntentNotFound)
    else
      var rec := s.intents[h];
      if rec.status != Filled then Err(AlreadyFilled)
      else if env.now > SatAdd64(rec.deadline, MIN_DISPATCH_WINDOW) then Err(IntentExpired)
      else if rec.solver.None? || rec.solverEvm.None? then Err(IntentNotFound)
      else
        var solver := rec.solver.value;
        var s1 :- Dispatch(env, s, rec.srcEid, ConfirmationPayload(rec, rec.solverEvm.value), lzFee);
        var s2 := MarkConfirmed(env, s1, h, rec, solver);
        PayReward(env, s2, caller, s2.cfg.dispatchKeeperReward,
                  caller != solver && SatSub(env.sequence, rec.fillLedger) >= DISPATCH_REWARD_GRACE_LEDGERS)
  }

  function FillIntent(env: Env, s: State, solver: Address, solverEvm: Word, h: Word, amount: i128, lzFee: i128): Result<State, Error> {
    if solver !in env.auth then Err(HostTrap)
    else if s.cfg.paused then Err(ContractPaused)
    else
      var rec :- ValidateFill(env, s, solver, solverEvm, h, amount);
      var rec' := FilledRecord(env, rec, solver, solverEvm, amount);
      var s1 :- SettleDelivery(env, s, h, rec', solver, amount);
      var s2 :- Dispatch(env, s1, rec.srcEid, ConfirmationPayload(rec', solverEvm), lzFee);
      Ok(MarkConfirmed(env, s2, h, rec', solver))
  }

  // --- Cancelling ---------------------------------------------------------------

  function MarkCancelled(s: State, h: Word): State
    requires h in s.intents
  {
    s.(intents := s.intents[h := s.intents[h].(status := Cancelled)], cancelled := s.cancelled + {h})
  }

  function CancelExpiredIntent(env: Env, s: State, caller: Address, h: Word, lzFee: i128): Result<State, Error> {
    if caller !in env.auth then Err(HostTrap)
    else if h in s.cancelled then Err(IntentFinalized)
    else if h in s.settled then Err(AlreadyFilled)
    else if h !in s.intents then Err(IntentNotFound)
    else
      var rec := s.intents[h];
      if rec.status != Locked then Err(if rec.status == Cancelled then IntentFinalized else AlreadyFilled)
      else if env.now < rec.deadline then Err(DeadlineNotPassed)
      else
        var s1 :- Dispatch(env, MarkCancelled(s, h), rec.srcEid, EncodeCancel(rec.intentHash, CANCEL_REASON_EXPIRED), lzFee);
        PayReward(env, s1, caller, s1.cfg.keeperReward, true)
  }

  // --- Inbound ------------------------------------------------------------------

  /** The record a FillInstruction registers; the transport's eid wins over the body's. */
  function NewRecord(env: Env, srcEid: Eid, fi: FillInstruction): IntentRecord {
    var expires: u64 := if fi.reservationWindow > 0 then Min(SatAdd64(env.now, fi.reservationWindow), fi.deadline) else fi.deadline;
    IntentRecord(fi.intentHash, srcEid, fi.recipient, fi.destAsset, fi.minDestAmount, fi.deadline, fi.preferredSolver,
                 expires, Locked, None, fi.lockedSolver, 0, 0)
  }

  function OnFillInstruction(env: Env, s: State, srcEid: Eid, fi: FillInstruction): Result<State, Error> {
    var h := fi.intentHash;
    if IsFinalized(s, h) || h in s.intents then Ok(s)
    else if fi.minDestAmount <= 0 then Err(InvalidAmount)
    else if fi.deadline > SatAdd64(env.now, MAX_DEADLINE_HORIZON) then Err(DeadlineTooFar)
    else if srcEid !in s.cfg.peers then Err(UntrustedPeer)
    else
      var (caps, admitted) :- EnforceValueCaps(s.caps, fi.minDestAmount, env.now);
      if admitted then Ok(s.(caps := caps, intents := s.intents[h := NewRecord(env, srcEid, fi)]))
      else Ok(s.(caps := caps))
  }

  /** A cancel may overtake its registration, and then leaves a tombstone. */
  function OnCancelInbound(s: State, h: Word): State {
    if IsFinalized(s, h) then s
    else if h !in s.intents then s.(cancelled := s.cancelled + {h})
    else if s.intents[h].status == Locked then MarkCancelled(s, h)
    else s
  }

  /** `authorize_inbound`: only the endpoint, only the registered peer. */
  function AuthorizeInbound(env: Env, s: State, origin: Origin): Option<Error> {
    if s.cfg.endpoint.None? then Some(NotInitialized)
    else if s.cfg.endpoint.value !in env.auth then Some(HostTrap)
    else if origin.srcEid !in s.cfg.peers || s.cfg.peers[origin.srcEid] != origin.sender then Some(UntrustedPeer)
    else None
  }

  function ConsumeNonce(s: State, eid: Eid, nonce: u64): Result<State, Error> {
    match AcceptNonce(s.nonces, eid, nonce)
    case None => Err(StaleNonce)
    case Some(n) => Ok(s.(nonces := n))
  }

  /** Pause gate, nonce guard, handler. A pause leaves the nonce for redelivery. */
  function ApplyInbound(env: Env, s: State, origin: Origin, m: LzMessage): Result<State, Error> {
    match m
    case FillMsg(fi) =>
      if s.cfg.paused || origin.srcEid in s.cfg.pausedEids then Err(ContractPaused)
      else
        var s1 :- ConsumeNonce(s, origin.srcEid, origin.nonce);
        OnFillInstruction(env, s1, origin.srcEid, fi)
    case CancelMsg(h, _) =>
      var s1 :- ConsumeNonce(s, origin.srcEid, origin.nonce);
      Ok(OnCancelInbound(s1, h))
  }

  function LzReceive(env: Env, s: State, origin: Origin, m: LzMessage): Result<State, Error> {
    match AuthorizeInbound(env, s, origin)
    case Some(e) => Err(e)
    case None => ApplyInbound(env, s, origin, m)
  }

  /** `resolve_dest_asset_id`. */
  ghost function ResolveDestAsset(env: Env, cfg: Config, id: seq<byte>): Result<Address, Error> {
    if |id| > MAX_DEST_ASSET_LEN then Err(InvalidDestAsset)
    else
      match Parse(id)
      case None => Err(InvalidDestAsset)
      case Some(Native) => if cfg.nativeToken.Some? then Ok(cfg.nativeToken.value) else Err(NotInitialized)
      case Some(Classic(code, issuer)) => Ok(env.sacAddress(code, issuer))
      case Some(Contract) => if id in cfg.allowedTokens then Ok(id) else Err(UnsupportedDestAsset)
  }

  /** `into_fill_instruction`. */
  function AsInstruction(f: WireFill, asset: Address): FillInstruction
    requires WellFormedFill(f)
  {
    FillInstruction(f.intentHash, f.srcEid, f.recipient, asset, f.minDestAmount, f.deadline, None, f.lockedSolver, f.reservationWindow)
  }

  /** The decoded wire message with its asset resolved; a zero solver word is refused. */
  ghost function ResolveMessage(env: Env, cfg: Config, m: WireMessage): Result<LzMessage, Error>
    requires WellFormed(m)
  {
    match m
    case WireCancel(h, reason) => Ok(CancelMsg(h, reason))
    case WireFillInstruction(f) =>
      if f.lockedSolver.None? then Err(MalformedPayload)
      else
        var asset :- ResolveDestAsset(env, cfg, f.destAsset);
        Ok(FillMsg(AsInstruction(f, asset)))
  }

  ghost predicate WellFormed(m: WireMessage) {
    match m
    case WireFillInstruction(f) => WellFormedFill(f)
    case WireCancel(h, _) => |h| == 32
  }

  lemma DecodedShape(message: seq<byte>)
    requires DecodeMessage(message).Ok?
    ensures WellFormed(DecodeMessage(message).value)
  {
  }

  /** `lz_receive_bytes`: authenticate, then decode, then apply. */
  ghost function LzReceiveBytes(env: Env, s: State, origin: Origin, message: seq<byte>): Result<State, Error> {
    match AuthorizeInbound(env, s, origin)
    case Some(e) => Err(e)
    case None =>
      var wire :- DecodeMessage(message);
      DecodedShape(message);
      var m :- ResolveMessage(env, s.cfg, wire);
      ApplyInbound(env, s, origin, m)
  }

  /** `prune_nonce_words` behind its pause gate. */
  function PruneWords(s: State, eid: Eid): Result<State, Error> {
    if s.cfg.paused then Err(ContractPaused)
    else
      match PruneNonceWords(s.nonces, eid)
      case None => Err(HostTrap)
      case Some(n) => Ok(s.(nonces := n))
  }

  /** `reset_rolling_window_cap` behind its admin check. */
  function ResetCap(env: Env, s: State): Result<State, Error> {
    if s.cfg.admin.None? then Err(NotInitialized)
    else if s.cfg.admin.value !in env.auth then Err(HostTrap)
    else
      var caps :- ResetRollingWindowCap(s.caps, env.now);
      Ok(s.(caps := caps))
  }

  // --- One invocation -------------------------------------------------------------

  datatype Call =
    | Deliver(solver: Address, solverEvm: Word, h: Word, amount: i128)
    | Confirm(caller: Address, h: Word, lzFee: i128)
    | Fill(solver: Address, solverEvm: Word, h: Word, amount: i128, lzFee: i128)
    | CancelExpired(caller: Address, h: Word, lzFee: i128)
    | Receive(origin: Origin, message: LzMessage)
    | ReceiveBytes(origin: Origin, bytes: seq<byte>)
    | Prune(eid: Eid)
    | ResetWindow

  ghost function Execute(env: Env, s: State, c: Call): Result<State, Error> {
    match c
    case Deliver(solver, solverEvm, h, amount) => DeliverIntent(env, s, solver, solverEvm, h, amount)
    case Confirm(caller, h, lzFee) => DispatchConfirmation(env, s, caller, h, lzFee)
    case Fill(solver, solverEvm, h, amount, lzFee) => FillIntent(env, s, solver, solverEvm, h, amount, lzFee)
    case CancelExpired(caller, h, lzFee) => CancelExpiredIntent(env, s, caller, h, lzFee)
    case Receive(origin, message) => LzReceive(env, s, origin, message)
    case ReceiveBytes(origin, bytes) => LzReceiveBytes(env, s, origin, bytes)
    case Prune(eid) => PruneWords(s, eid)
    case ResetWindow => ResetCap(env, s)
  }

  /** The host keeps what a successful invocation wrote and drops everything else. */
  ghost function Commit(env: Env, s: State, c: Call): State {
    match Execute(env, s, c)
    case Ok(s') => s'
    case Err(_) => s
  }
}
