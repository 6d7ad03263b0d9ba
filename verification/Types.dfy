/** Entities of the settlement contract (types.rs, error.rs). */
module Types {
  import opened Prelude

  /** 32 bytes: an intent hash, a peer, an EVM address padded on the left. */
  type Word = w: seq<byte> | |w| == 32 witness seq(32, _ => 0)

  /** A Stellar address, by its strkey text. */
  type Address = seq<byte>

  type Eid = u32

  /** `PerihelionError`, and `HostTrap` for whatever makes the host abort the call. */
  datatype Error =
    | NotInitialized
    | ContractPaused
    | ReservedForSolver
    | IntentNotFound
    | IntentFinalized
    | IntentExpired
    | DeadlineNotPassed
    | InsufficientFillAmount
    | InvalidAmount
    | AlreadyFilled
    | DeadlineTooFar
    | ExceedsMaxIntentAmount
    | RollingWindowCapTriggered
    | MalformedPayload
    | UnknownMessageType
    | StaleNonce
    | UntrustedPeer
    | InsufficientLzFee
    | InvalidSolverEvm
    | UnsupportedDestAsset
    | InvalidDestAsset
    | ArithmeticError
    | HostTrap

  datatype IntentStatus = Locked | Filled | ConfirmationSent | Cancelled

  datatype IntentRecord = IntentRecord(
    intentHash: Word,
    srcEid: Eid,
    recipient: Address,
    destAsset: Address,
    minDestAmount: i128,
    deadline: u64,
    preferredSolver: Option<Address>,
    reservationExpires: u64,
    status: IntentStatus,
    solver: Option<Address>,
    solverEvm: Option<Word>,
    fillAmount: i128,
    fillLedger: u32)

  datatype Reputation = Reputation(fillCount: u64, successCount: u64, ewmaLatency: nat)

  datatype Origin = Origin(srcEid: Eid, sender: Word, nonce: u64)

  datatype FillInstruction = FillInstruction(
    intentHash: Word,
    srcEid: Eid,
    recipient: Address,
    destAsset: Address,
    minDestAmount: i128,
    deadline: u64,
    preferredSolver: Option<Address>,
    lockedSolver: Option<Word>,
    reservationWindow: u64)

  datatype LzMessage = FillMsg(fi: FillInstruction) | CancelMsg(intentHash: Word, reason: byte)

  /** An outbound LayerZero send. */
  datatype Packet = Packet(dstEid: Eid, receiver: Word, payload: seq<byte>)

  /** A token transfer made to settle an intent. */
  datatype Delivery = Delivery(intentHash: Word, token: Address, from: Address, to: Address, amount: i128)
}
