/**
 * LayerZero payloads (messages.rs, and the relayer's encoder in evm-watcher.ts):
 * fixed big-endian layouts, decoded strictly.
 */
module Messages {
  import opened Prelude
  import opened Radix
  import opened Strkey
  import opened Asset
  import opened Types

  const PROTOCOL_VERSION: byte := 1
  const MSG_FILL_INSTRUCTION: byte := 1
  const MSG_FILL_CONFIRMED: byte := 2
  const MSG_CANCEL_INTENT: byte := 3

  const FILL_INSTRUCTION_LENGTH := 227
  const FILL_CONFIRMED_LENGTH := 90
  const CANCEL_INTENT_LENGTH := 35

  const U128_LIMIT := 0x1_0000_0000_0000_0000_0000_0000_0000_0000

  /** A FillInstruction before its asset is resolved. An address is its strkey text. */
  datatype WireFill = WireFill(
    intentHash: seq<byte>,
    srcEid: u32,
    recipient: seq<byte>,
    destAsset: seq<byte>,
    minDestAmount: int,
    deadline: u64,
    lockedSolver: Option<seq<byte>>,
    reservationWindow: u64)

  datatype WireMessage =
    | WireFillInstruction(fill: WireFill)
    | WireCancel(intentHash: seq<byte>, reason: byte)

  // --- Fields ---------------------------------------------------------------

  function BigEndian(n: nat, width: nat): (s: seq<byte>)
    ensures |s| == width
  {
    ToDigits(256, n, width)
  }

  function Zeros(n: nat): (s: seq<byte>)
    ensures |s| == n
  {
    seq(n, _ => 0)
  }

  /** Right-zero-padding to the field width. */
  function PadRight(s: seq<byte>, width: nat): (p: seq<byte>)
    requires |s| <= width
    ensures |p| == width
  {
    s + Zeros(width - |s|)
  }

  /** `trimmed_len`: one past the last nonzero byte. */
  function TrimmedLen(p: seq<byte>): (n: nat)
    ensures n <= |p|
    ensures n == 0 || p[n - 1] != 0
    ensures forall i :: n <= i < |p| ==> p[i] == 0
  {
    if p == [] then 0
    else if p[|p| - 1] != 0 then |p|
    else TrimmedLen(p[..|p| - 1])
  }

  function Trim(p: seq<byte>): seq<byte> {
    p[..TrimmedLen(p)]
  }

  lemma PadOfTrim(p: seq<byte>)
    ensures PadRight(Trim(p), |p|) == p
  {
  }

  lemma TrimOfPad(s: seq<byte>, width: nat)
    requires |s| <= width && (s == [] || s[|s| - 1] != 0)
    ensures Trim(PadRight(s, width)) == s
  {
    var p := PadRight(s, width);
    var n := TrimmedLen(p);
    assert s != [] ==> p[|s| - 1] == s[|s| - 1];
    assert |s| <= n;
    assert n <= |s|;
  }

  /** Two's complement reading of sixteen bytes. */
  function SignedBigEndian(bytes: seq<byte>): int
    requires |bytes| == 16
  {
    var n := Num(256, bytes);
    if n < U128_LIMIT / 2 then n else n - U128_LIMIT
  }

  lemma BigEndianRoundTrip(n: nat, width: nat)
    requires n < Pow(256, width)
    ensures Num(256, BigEndian(n, width)) == n
  {
    NumToDigits(256, n, width);
  }

  lemma BigEndianOfNum(bytes: seq<byte>)
    ensures 0 <= Num(256, bytes) < Pow(256, |bytes|)
    ensures BigEndian(Num(256, bytes), |bytes|) == bytes
  {
    NumBound(256, bytes);
    ToDigitsNum(256, bytes);
  }

  lemma FieldLimits()
    ensures Pow(256, 4) == U32_LIMIT && Pow(256, 8) == U64_LIMIT && Pow(256, 16) == U128_LIMIT
  {
    assert Pow(256, 2) == 0x1_0000 by { assert Pow(256, 1) == 256; }
    PowAdd(256, 2, 2);
    PowAdd(256, 4, 4);
    PowAdd(256, 8, 8);
  }

  // --- Encoding ---------------------------------------------------------------

  /** What a field-by-field encoder may be given, and what the decoder hands out. */
  ghost predicate WellFormedFill(f: WireFill) {
    && |f.intentHash| == 32
    && IsValidStrkey(f.recipient)
    && Parse(f.destAsset).Some?
    && 0 <= f.minDestAmount < U128_LIMIT / 2
    && (f.lockedSolver.Some? ==> |f.lockedSolver.value| == 32 && f.lockedSolver.value != Zeros(32))
  }

  function SolverWord(solver: Option<seq<byte>>): seq<byte> {
    solver.UnwrapOr(Zeros(32))
  }

  ghost function EncodeFill(f: WireFill): (m: seq<byte>)
    requires WellFormedFill(f)
    ensures |m| == FILL_INSTRUCTION_LENGTH
  {
    StrkeyHasNoNul(f.recipient);
    NoNul(f.destAsset);
    FillLayout(f.intentHash, f.srcEid, f.recipient, f.destAsset, f.minDestAmount, f.deadline,
               SolverWord(f.lockedSolver), f.reservationWindow)
  }

  /** The 227-byte layout. */
  function FillLayout(intentHash: seq<byte>, eid: nat, recipient: seq<byte>, asset: seq<byte>, amount: nat,
                      deadline: nat, solverWord: seq<byte>, window: nat): (m: seq<byte>)
    requires |intentHash| == 32 && |recipient| <= 56 && |asset| <= 69 && |solverWord| == 32
    ensures |m| == FILL_INSTRUCTION_LENGTH
  {
    [PROTOCOL_VERSION, MSG_FILL_INSTRUCTION] + intentHash + BigEndian(eid, 4) + PadRight(recipient, 56)
    + PadRight(asset, 69) + BigEndian(amount, 16) + BigEndian(deadline, 8) + solverWord + BigEndian(window, 8)
  }

  function EncodeCancel(intentHash: seq<byte>, reason: byte): (m: seq<byte>)
    requires |intentHash| == 32
    ensures |m| == CANCEL_INTENT_LENGTH
  {
    [PROTOCOL_VERSION, MSG_CANCEL_INTENT] + intentHash + [reason]
  }

  function AsU128(n: i128): nat {
    if n < 0 then n + U128_LIMIT else n
  }

  function EncodeFillConfirmed(intentHash: seq<byte>, solverEvm: seq<byte>, amount: i128, ledger: u32): (m: seq<byte>)
    requires |intentHash| == 32 && |solverEvm| == 32
    ensures |m| == FILL_CONFIRMED_LENGTH
  {
    [PROTOCOL_VERSION, MSG_FILL_CONFIRMED] + intentHash + solverEvm + BigEndian(AsU128(amount), 16) + BigEndian(ledger, 8)
  }

  // --- Decoding ---------------------------------------------------------------

  ghost function DecodeFill(m: seq<byte>): (r: Result<WireFill, Error>)
    ensures r.Ok? ==> WellFormedFill(r.value)
  {
    if |m| != FILL_INSTRUCTION_LENGTH then Err(MalformedPayload)
    else
      BigEndianOfNum(m[34..38]);
      BigEndianOfNum(m[163..179]);
      BigEndianOfNum(m[179..187]);
      BigEndianOfNum(m[219..227]);
      FieldLimits();
      var recipient, asset := Trim(m[38..94]), Trim(m[94..163]);
      var amount := SignedBigEndian(m[163..179]);
      var word := m[187..219];
      if !IsValidStrkey(recipient) || Parse(asset).None? || amount < 0 then Err(MalformedPayload)
      else Ok(WireFill(m[2..34], Num(256, m[34..38]), recipient, asset, amount, Num(256, m[179..187]),
                       if word == Zeros(32) then None else Some(word), Num(256, m[219..227])))
  }

  function DecodeCancel(m: seq<byte>): Result<WireMessage, Error> {
    if |m| != CANCEL_INTENT_LENGTH || m[34] > 2 then Err(MalformedPayload)
    else Ok(WireCancel(m[2..34], m[34]))
  }

  ghost function DecodeMessage(m: seq<byte>): Result<WireMessage, Error> {
    if |m| < 2 || m[0] != PROTOCOL_VERSION then Err(MalformedPayload)
    else if m[1] == MSG_FILL_INSTRUCTION then
      match DecodeFill(m)
      case Ok(f) => Ok(WireFillInstruction(f))
      case Err(e) => Err(e)
    else if m[1] == MSG_CANCEL_INTENT then DecodeCancel(m)
    else Err(UnknownMessageType)
  }

  // --- The codecs are bijections ------------------------------------------------

  lemma FillLayoutFields(intentHash: seq<byte>, eid: nat, recipient: seq<byte>, asset: seq<byte>, amount: nat,
                         deadline: nat, solverWord: seq<byte>, window: nat)
    requires |intentHash| == 32 && |recipient| <= 56 && |asset| <= 69 && |solverWord| == 32
    ensures var m := FillLayout(intentHash, eid, recipient, asset, amount, deadline, solverWord, window);
      && m[0] == PROTOCOL_VERSION && m[1] == MSG_FILL_INSTRUCTION && m[2..34] == intentHash
      && m[34..38] == BigEndian(eid, 4) && m[38..94] == PadRight(recipient, 56)
      && m[94..163] == PadRight(asset, 69) && m[163..179] == BigEndian(amount, 16)
      && m[179..187] == BigEndian(deadline, 8) && m[187..219] == solverWord && m[219..227] == BigEndian(window, 8)
  {
    hide BigEndian, PadRight;
  }

  /** Decoding an encoded FillInstruction gives the same fields. */
  lemma FillRoundTrip(f: WireFill)
    requires WellFormedFill(f)
    ensures DecodeMessage(EncodeFill(f)) == Ok(WireFillInstruction(f))
  {
    hide BigEndian, PadRight, Pow, Num, IsValidStrkey, Parse, Trim, Zeros;
    StrkeyHasNoNul(f.recipient);
    NoNul(f.destAsset);
    FillLayoutFields(f.intentHash, f.srcEid, f.recipient, f.destAsset, f.minDestAmount, f.deadline,
                     SolverWord(f.lockedSolver), f.reservationWindow);
    TrimOfPad(f.recipient, 56);
    TrimOfPad(f.destAsset, 69);
    FieldLimits();
    BigEndianRoundTrip(f.srcEid, 4);
    BigEndianRoundTrip(f.minDestAmount, 16);
    BigEndianRoundTrip(f.deadline, 8);
    BigEndianRoundTrip(f.reservationWindow, 8);
  }

  /** Re-encoding an accepted payload gives back its 227 bytes. */
  lemma FillReencodes(m: seq<byte>)
    requires DecodeMessage(m).Ok? && DecodeMessage(m).value.WireFillInstruction?
    ensures EncodeFill(DecodeMessage(m).value.fill) == m
  {
    hide BigEndian, PadRight, Pow, Num, IsValidStrkey, Parse, Trim;
    var f := DecodeMessage(m).value.fill;
    FieldLimits();
    BigEndianOfNum(m[34..38]);
    BigEndianOfNum(m[163..179]);
    BigEndianOfNum(m[179..187]);
    BigEndianOfNum(m[219..227]);
    PadOfTrim(m[38..94]);
    PadOfTrim(m[94..163]);
    assert SolverWord(f.lockedSolver) == m[187..219];
    assert m == [m[0], m[1]] + m[2..34] + m[34..38] + m[38..94] + m[94..163] + m[163..179] + m[179..187]
                + m[187..219] + m[219..227];
  }

  lemma CancelRoundTrip(intentHash: seq<byte>, reason: byte)
    requires |intentHash| == 32 && reason <= 2
    ensures DecodeMessage(EncodeCancel(intentHash, reason)) == Ok(WireCancel(intentHash, reason))
  {
    var m := EncodeCancel(intentHash, reason);
    assert m[2..34] == intentHash;
  }

  lemma CancelReencodes(m: seq<byte>)
    requires DecodeMessage(m).Ok? && DecodeMessage(m).value.WireCancel?
    ensures var WireCancel(intentHash, reason) := DecodeMessage(m).value;
      |intentHash| == 32 && reason <= 2 && EncodeCancel(intentHash, reason) == m
  {
    assert m == [m[0], m[1]] + m[2..34] + [m[34]];
  }

  /** No two accepted payloads decode alike. */
  lemma DecodeInjective(a: seq<byte>, b: seq<byte>)
    requires DecodeMessage(a).Ok? && DecodeMessage(a) == DecodeMessage(b)
    ensures a == b
  {
    if DecodeMessage(a).value.WireFillInstruction? {
      FillReencodes(a);
      FillReencodes(b);
    } else {
      CancelReencodes(a);
      CancelReencodes(b);
    }
  }

  lemma FillConfirmedFields(h: seq<byte>, s: seq<byte>, a: i128, l: u32)
    requires |h| == |s| == 32
    ensures var m := EncodeFillConfirmed(h, s, a, l);
      m[2..34] == h && m[34..66] == s && Num(256, m[66..82]) == AsU128(a) && Num(256, m[82..90]) == l
  {
    hide BigEndian, Num;
    FieldLimits();
    BigEndianRoundTrip(AsU128(a), 16);
    BigEndianRoundTrip(l, 8);
    var m := EncodeFillConfirmed(h, s, a, l);
    assert m[66..82] == BigEndian(AsU128(a), 16);
    assert m[82..90] == BigEndian(l, 8);
  }

  /** A confirmation determines every one of its fields. */
  lemma FillConfirmedInjective(h1: seq<byte>, s1: seq<byte>, a1: i128, l1: u32, h2: seq<byte>, s2: seq<byte>, a2: i128, l2: u32)
    requires |h1| == |h2| == |s1| == |s2| == 32
    requires EncodeFillConfirmed(h1, s1, a1, l1) == EncodeFillConfirmed(h2, s2, a2, l2)
    ensures h1 == h2 && s1 == s2 && a1 == a2 && l1 == l2
  {
    FillConfirmedFields(h1, s1, a1, l1);
    FillConfirmedFields(h2, s2, a2, l2);
  }

  // --- The source's loops and buffers -------------------------------------------

  /** `read_field`: copy `n` bytes, or fail where the message ends. */
  method ReadField(message: seq<byte>, offset: nat, n: nat) returns (r: Result<seq<byte>, Error>)
    ensures r == if offset + n <= |message| || n == 0 then Ok(if n == 0 then [] else message[offset..offset + n])
                 else Err(MalformedPayload)
  {
    var out := new byte[n](_ => 0);
    for i := 0 to n
      invariant i > 0 ==> offset + i <= |message| && out[..i] == message[offset..offset + i]
    {
      if offset + i >= |message| { return Err(MalformedPayload); }
      ghost var before := out[..i];
      out[i] := message[offset + i];
      assert out[..i + 1] == before + [message[offset + i]];
    }
    assert out[..n] == out[..];
    r := Ok(out[..]);
  }

  method DecodeStrkeyAddress(padded: seq<byte>) returns (r: Result<seq<byte>, Error>)
    ensures r == if IsValidStrkey(Trim(padded)) then Ok(Trim(padded)) else Err(MalformedPayload)
  {
    var text := Trim(padded);
    var decoded := DecodeStrkeyLoop(text);
    r := if decoded.Some? then Ok(text) else Err(MalformedPayload);
  }

  /** `decode_fill_instruction`, field by field. */
  method DecodeFillInstruction(message: seq<byte>) returns (r: Result<WireFill, Error>)
    ensures r == DecodeFill(message)
  {
    hide IsValidStrkey, Parse, Num, Trim, Pow, Zeros;
    if |message| != FILL_INSTRUCTION_LENGTH { return Err(MalformedPayload); }
    BigEndianOfNum(message[34..38]);
    BigEndianOfNum(message[163..179]);
    BigEndianOfNum(message[179..187]);
    BigEndianOfNum(message[219..227]);
    FieldLimits();
    // The length check means none of these reads can fail.
    var intentHash := ReadField(message, 2, 32);
    var srcEid := ReadField(message, 34, 4);
    var recipientRaw := ReadField(message, 38, 56);
    var recipient :- DecodeStrkeyAddress(recipientRaw.value);
    var destAssetRaw := ReadField(message, 94, 69);
    var destAsset := Trim(destAssetRaw.value);
    var asset := ParseText(destAsset);
    if asset.None? { return Err(MalformedPayload); }
    var amountBytes := ReadField(message, 163, 16);
    var amount := SignedBigEndian(amountBytes.value);
    if amount < 0 { return Err(MalformedPayload); }
    var deadlineBytes := ReadField(message, 179, 8);
    var solverWord := ReadField(message, 187, 32);
    var lockedSolver := if solverWord.value == Zeros(32) then None else Some(solverWord.value);
    var windowBytes := ReadField(message, 219, 8);
    r := Ok(WireFill(intentHash.value, Num(256, srcEid.value), recipient, destAsset, amount,
                     Num(256, deadlineBytes.value), lockedSolver, Num(256, windowBytes.value)));
  }

  method DecodeCancelIntent(message: seq<byte>) returns (r: Result<WireMessage, Error>)
    ensures r == DecodeCancel(message)
  {
    if |message| != CANCEL_INTENT_LENGTH { return Err(MalformedPayload); }
    var intentHash := ReadField(message, 2, 32);
    var reason := message[34];
    if reason != 0 && reason != 1 && reason != 2 { return Err(MalformedPayload); }
    r := Ok(WireCancel(intentHash.value, reason));
  }

  /** `decode_message`: version, then type, then the decoder for it. */
  method DecodeMessageBytes(message: seq<byte>) returns (r: Result<WireMessage, Error>)
    ensures r == DecodeMessage(message)
  {
    hide DecodeFill;
    if |message| < 2 || message[0] != PROTOCOL_VERSION { return Err(MalformedPayload); }
    if message[1] == MSG_FILL_INSTRUCTION {
      var fill :- DecodeFillInstruction(message);
      r := Ok(WireFillInstruction(fill));
    } else if message[1] == MSG_CANCEL_INTENT {
      r := DecodeCancelIntent(message);
    } else {
      r := Err(UnknownMessageType);
    }
  }

  /** What the relayer's encoder is asked to put on the wire. */
  datatype FillRequest = FillRequest(
    intentHash: seq<byte>, solver: seq<byte>, stellarEid: int, destination: seq<byte>, destAsset: seq<byte>,
    minDestAmount: int, deadline: int)

  predicate FitsTheWire(q: FillRequest) {
    && |q.intentHash| == 32 && |q.solver| == 20
    && 0 <= q.stellarEid < U32_LIMIT
    && 0 <= q.minDestAmount < U128_LIMIT
    && 0 <= q.deadline < U64_LIMIT
    && |q.destination| <= 56 && |q.destAsset| <= 69
  }

  /** A 20-byte EVM address as a 32-byte word. */
  function SolverAsWord(solver: seq<byte>): (w: seq<byte>)
    requires |solver| == 20
    ensures |w| == 32
  {
    Zeros(12) + solver
  }

  function CanonicalFill(q: FillRequest): (m: seq<byte>)
    requires FitsTheWire(q)
    ensures |m| == FILL_INSTRUCTION_LENGTH
  {
    FillLayout(q.intentHash, q.stellarEid, q.destination, q.destAsset, q.minDestAmount, q.deadline,
               SolverAsWord(q.solver), 0)
  }

  /** The same request as the contract's decoder would name it. */
  function RequestAsWire(q: FillRequest): WireFill
    requires FitsTheWire(q)
  {
    WireFill(q.intentHash, q.stellarEid, q.destination, q.destAsset, q.minDestAmount, q.deadline,
             if q.solver == Zeros(20) then None else Some(SolverAsWord(q.solver)), 0)
  }

  /** Everything up to `done` is written, the rest of the buffer is still zero. */
  ghost predicate Written(out: array<byte>, done: seq<byte>)
    reads out
  {
    |done| <= out.Length && out[..] == done + Zeros(out.Length - |done|)
  }

  /** `copy` / `writeUInt..` at an offset past some untouched padding. */
  method CopyAt(out: array<byte>, bytes: seq<byte>, at: nat, ghost done: seq<byte>) returns (ghost now: seq<byte>)
    requires Written(out, done) && |done| <= at && at + |bytes| <= out.Length
    modifies out
    ensures now == PadRight(done, at) + bytes && Written(out, now)
  {
    for i := 0 to |bytes|
      invariant out[..] == PadRight(done, at) + bytes[..i] + Zeros(out.Length - at - i)
    {
      out[at + i] := bytes[i];
    }
    now := PadRight(done, at) + bytes;
  }

  /** `canonicalFillInstruction`: refuse what does not fit, else write at fixed offsets. */
  method CanonicalFillInstruction(q: FillRequest) returns (r: Option<seq<byte>>)
    ensures r == if FitsTheWire(q) then Some(CanonicalFill(q)) else None
  {
    hide BigEndian;
    if !FitsTheWire(q) { return None; }
    var out := new byte[FILL_INSTRUCTION_LENGTH](_ => 0);
    assert out[..] == [] + Zeros(FILL_INSTRUCTION_LENGTH);
    assert Written(out, []);
    hide Written;
    ghost var done := CopyAt(out, [PROTOCOL_VERSION, MSG_FILL_INSTRUCTION], 0, []);
    done := CopyAt(out, q.intentHash, 2, done);
    done := CopyAt(out, BigEndian(q.stellarEid, 4), 34, done);
    done := CopyAt(out, q.destination, 38, done);
    ghost var head := done;
    done := CopyAt(out, q.destAsset, 94, done);
    ghost var assets := done;
    done := CopyAt(out, BigEndian(q.minDestAmount, 16), 163, done);
    done := CopyAt(out, BigEndian(q.deadline, 8), 179, done);
    done := CopyAt(out, q.solver, 199, done);
    WrittenIsCanonical(q, out, head, assets, done);
    r := Some(out[..]);
  }

  lemma WrittenIsCanonical(q: FillRequest, out: array<byte>, head: seq<byte>, assets: seq<byte>, done: seq<byte>)
    requires FitsTheWire(q) && out.Length == FILL_INSTRUCTION_LENGTH && Written(out, done)
    requires head == [PROTOCOL_VERSION, MSG_FILL_INSTRUCTION] + q.intentHash + BigEndian(q.stellarEid, 4) + q.destination
    requires |head| <= 94 && assets == PadRight(head, 94) + q.destAsset && |assets| <= 163
    requires done == PadRight(PadRight(assets, 163) + BigEndian(q.minDestAmount, 16) + BigEndian(q.deadline, 8), 199) + q.solver
    ensures out[..] == CanonicalFill(q)
  {
    NoWindow();
    hide BigEndian;
    var lead := [PROTOCOL_VERSION, MSG_FILL_INSTRUCTION] + q.intentHash + BigEndian(q.stellarEid, 4);
    assert PadRight(head, 94) == lead + PadRight(q.destination, 56);
    assert PadRight(assets, 163) == PadRight(head, 94) + PadRight(q.destAsset, 69);
    var body := PadRight(assets, 163) + BigEndian(q.minDestAmount, 16) + BigEndian(q.deadline, 8);
    assert PadRight(body, 199) == body + Zeros(12);
    assert out[..] == body + (Zeros(12) + q.solver) + Zeros(8);
  }

  lemma NoWindow()
    ensures BigEndian(0, 8) == Zeros(8)
  {
    assert BigEndian(0, 4) == Zeros(4);
    assert BigEndian(0, 5) == BigEndian(0, 4) + [0] && BigEndian(0, 6) == BigEndian(0, 5) + [0];
    assert BigEndian(0, 7) == BigEndian(0, 6) + [0] && BigEndian(0, 8) == BigEndian(0, 7) + [0];
  }

  /**
   * The relayer accepts more than the contract: what it encodes is read back as
   * itself exactly when both strings are canonical and the amount is below 2^127.
   */
  lemma CanonicalFillDecodes(q: FillRequest)
    requires FitsTheWire(q)
    ensures DecodeMessage(CanonicalFill(q)) == Ok(WireFillInstruction(RequestAsWire(q)))
      <==> IsValidStrkey(q.destination) && Parse(q.destAsset).Some? && q.minDestAmount < U128_LIMIT / 2
  {
    var f := RequestAsWire(q);
    if IsValidStrkey(q.destination) && Parse(q.destAsset).Some? && q.minDestAmount < U128_LIMIT / 2 {
      ZeroSolver(q.solver);
      NoWindow();
      assert EncodeFill(f) == CanonicalFill(q);
      FillRoundTrip(f);
    }
  }

  lemma ZeroSolver(solver: seq<byte>)
    requires |solver| == 20
    ensures SolverAsWord(solver) == Zeros(32) <==> solver == Zeros(20)
  {
    assert SolverAsWord(solver)[12..] == solver;
    assert Zeros(32)[12..] == Zeros(20);
    assert Zeros(32) == Zeros(12) + Zeros(20);
  }
}
