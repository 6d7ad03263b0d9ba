/** The solver's decision to fill (quote.ts): pricing, margin, deadline and inventory gates. */
module Quote {
  import opened Arithmetic
  import opened Prelude
  import opened Radix

  const RATE_SCALE := 1_000_000_000_000_000_000
  const MIN_FILL_HEADROOM_SECS := 1920

  type Asset = string

  datatype Preferred = Malformed | Anyone | Only(solver: string)

  datatype Intent = Intent(
    sourceChainId: nat,
    sourceAmount: nat,
    destAsset: Asset,
    minDestAmount: nat,
    deadline: nat,
    preferred: Preferred)

  datatype Config = Config(
    sourceChainId: nat,
    supported: set<Asset>,
    solver: string,
    minMarginBps: int,
    maxPlausibleProfitBps: int,
    maxImplausibleTriggers: nat)

  /** What the injected dependencies answer; no pricing is a pricing error. */
  datatype Market = Market(
    pricing: Option<(nat, nat)>,
    available: int,
    sourceNative: Option<(int, int)>,
    destNative: Option<(int, int)>)

  datatype SkipCode =
    | WrongChain | Expired | UnsupportedAsset | Reserved | PricingError | BelowMargin | ImplausibleProfit
    | InsufficientInventory | InsufficientNative

  datatype Decision = Fill(profitBps: int, profit: int, fees: int) | Skip(code: SkipCode, terminal: bool)

  // --- Proceeds ---------------------------------------------------------------------

  /** `computeProceeds` on bigints; no result is the error of a non-positive rate. */
  function ComputeProceeds(sourceAmount: nat, rate: int, srcDecimals: nat, dstDecimals: nat): Option<nat> {
    if rate <= 0 then None
    else
      MulMono(0, sourceAmount, rate);
      var numerator: nat := sourceAmount * rate;
      if dstDecimals >= srcDecimals then
        MulMono(0, numerator, Pow(10, dstDecimals - srcDecimals));
        Some((numerator * Pow(10, dstDecimals - srcDecimals)) / RATE_SCALE)
      else
        Scaled(Pow(10, srcDecimals - dstDecimals));
        Some(numerator / (RATE_SCALE * Pow(10, srcDecimals - dstDecimals)))
  }

  lemma Scaled(p: int)
    requires p > 0
    ensures RATE_SCALE * p > 0
  {
  }

  /** The largest amount not above the exact value `amount * rate / 10^18 * 10^(dst - src)`. */
  ghost predicate IsFloorOf(p: nat, sourceAmount: nat, rate: int, srcDecimals: nat, dstDecimals: nat) {
    var exact := sourceAmount * rate * Pow(10, dstDecimals);
    var unit := RATE_SCALE * Pow(10, srcDecimals);
    p * unit <= exact < (p + 1) * unit
  }

  lemma FloorIs(x: nat, d: int)
    requires d > 0
    ensures (x / d) * d <= x < (x / d + 1) * d
  {
  }

  lemma Cancel(p: int, r: int, n: int, c: int)
    requires c > 0 && p * r <= n < (p + 1) * r
    ensures p * (r * c) <= n * c < (p + 1) * (r * c)
  {
    MulMono(p * r, n, c);
    MulMono(n + 1, (p + 1) * r, c);
    assert p * r * c == p * (r * c) && (p + 1) * r * c == (p + 1) * (r * c);
  }

  lemma FloorUp(numerator: nat, k: int, c: int, e: int)
    requires k > 0 && c > 0 && k * c == e && 0 <= numerator * k
    ensures var p := (numerator * k) / RATE_SCALE; p * (RATE_SCALE * c) <= numerator * e < (p + 1) * (RATE_SCALE * c)
  {
    FloorIs(numerator * k, RATE_SCALE);
    Cancel((numerator * k) / RATE_SCALE, RATE_SCALE, numerator * k, c);
    assert numerator * k * c == numerator * (k * c);
  }

  lemma FloorDown(numerator: nat, k: int, c: int, e: int)
    requires k > 0 && c > 0 && k * c == e && RATE_SCALE * k > 0
    ensures var p := numerator / (RATE_SCALE * k); p * (RATE_SCALE * e) <= numerator * c < (p + 1) * (RATE_SCALE * e)
  {
    FloorIs(numerator, RATE_SCALE * k);
    Cancel(numerator / (RATE_SCALE * k), RATE_SCALE * k, numerator, c);
    assert RATE_SCALE * k * c == RATE_SCALE * (k * c);
  }

  /** Decimal rescaling loses less than one smallest unit of the destination asset, whichever side has more decimals. */
  lemma ProceedsAreExactFloor(sourceAmount: nat, rate: int, srcDecimals: nat, dstDecimals: nat)
    requires rate > 0
    ensures IsFloorOf(ComputeProceeds(sourceAmount, rate, srcDecimals, dstDecimals).value, sourceAmount, rate, srcDecimals, dstDecimals)
  {
    MulMono(0, sourceAmount, rate);
    var numerator: nat := sourceAmount * rate;
    if dstDecimals >= srcDecimals {
      var k := Pow(10, dstDecimals - srcDecimals);
      MulMono(0, numerator, k);
      PowAdd(10, dstDecimals - srcDecimals, srcDecimals);
      hide Pow;
      FloorUp(numerator, k, Pow(10, srcDecimals), Pow(10, dstDecimals));
    } else {
      var k := Pow(10, srcDecimals - dstDecimals);
      Scaled(k);
      PowAdd(10, srcDecimals - dstDecimals, dstDecimals);
      hide Pow;
      FloorDown(numerator, k, Pow(10, dstDecimals), Pow(10, srcDecimals));
    }
  }

  // --- The decision -------------------------------------------------------------------

  /** `isExpired(intent, now, clockSkew)`. */
  predicate IsExpired(deadline: int, now: int, clockSkew: int) {
    deadline <= now - clockSkew
  }

  predicate Eligible(p: Preferred, solver: string) {
    p == Anyone || p == Only(solver)
  }

  predicate Funded(native: Option<(int, int)>) {
    native.Some? ==> native.value.0 >= native.value.1
  }

  function Evaluate(i: Intent, cfg: Config, m: Market, nowMs: nat, reserved: nat): Decision {
    if i.sourceChainId != cfg.sourceChainId then Skip(WrongChain, true)
    else if IsExpired(i.deadline, nowMs / 1000, 0) then Skip(Expired, true)
    else if IsExpired(i.deadline, nowMs / 1000, -MIN_FILL_HEADROOM_SECS) then Skip(Expired, true)
    else if i.destAsset !in cfg.supported then Skip(UnsupportedAsset, true)
    else if !Eligible(i.preferred, cfg.solver) then Skip(Reserved, true)
    else if m.pricing.None? then Skip(PricingError, false)
    else
      var (proceeds, fees) := m.pricing.value;
      if proceeds < i.minDestAmount then Skip(BelowMargin, false)
      else if proceeds - i.minDestAmount - fees <= 0 then Skip(BelowMargin, false)
      else
        var profit := proceeds - i.minDestAmount - fees;
        var scaled := (profit * 1_000_000) / proceeds;
        if scaled < cfg.minMarginBps * 100 then Skip(BelowMargin, false)
        else if scaled / 100 > cfg.maxPlausibleProfitBps then Skip(ImplausibleProfit, false)
        else if m.available - reserved < i.minDestAmount then Skip(InsufficientInventory, false)
        else if !Funded(m.sourceNative) || !Funded(m.destNative) then Skip(InsufficientNative, false)
        else Fill(scaled / 100, profit, fees)
  }

  // --- What a decision means ------------------------------------------------------------

  /** A margin gate in hundredths of a basis point loses nothing to rounding. */
  lemma MarginIsExact(profit: int, proceeds: int, minMarginBps: int)
    requires proceeds > 0
    ensures (profit * 1_000_000) / proceeds >= minMarginBps * 100 <==> profit * 10_000 >= minMarginBps * proceeds
  {
    var x, m := profit * 1_000_000, minMarginBps * 100;
    FloorIs2(x, proceeds);
    assert m * proceeds == 100 * (minMarginBps * proceeds);
    if x / proceeds >= m { MulMono(m, x / proceeds, proceeds); }
    else { MulMono(x / proceeds + 1, m, proceeds); }
  }

  lemma FloorIs2(x: int, d: int)
    requires d > 0
    ensures (x / d) * d <= x < (x / d) * d + d
  {
  }

  /** A fill is offered only where it delivers the minimum, earns the margin and no more than is plausible, and is covered by what is not yet committed. */
  lemma FillIsCovered(i: Intent, cfg: Config, m: Market, nowMs: nat, reserved: nat)
    requires Evaluate(i, cfg, m, nowMs, reserved).Fill?
    ensures m.pricing.Some?
    ensures var (proceeds, fees) := m.pricing.value; var profit := proceeds - i.minDestAmount - fees;
      profit > 0 && profit * 10_000 >= cfg.minMarginBps * proceeds
    ensures var (proceeds, fees) := m.pricing.value; var profit := proceeds - i.minDestAmount - fees;
      profit * 10_000 < (cfg.maxPlausibleProfitBps + 1) * proceeds
    ensures reserved + i.minDestAmount <= m.available
    ensures i.deadline > nowMs / 1000 + MIN_FILL_HEADROOM_SECS
  {
    var (proceeds, fees) := m.pricing.value;
    MarginIsExact(proceeds - i.minDestAmount - fees, proceeds, cfg.minMarginBps);
    PlausibleIsExact(proceeds - i.minDestAmount - fees, proceeds, cfg.maxPlausibleProfitBps);
  }

  /** A terminal skip is final: no later time, market or commitment makes the same intent a fill. */
  lemma TerminalIsForever(i: Intent, cfg: Config, m: Market, nowMs: nat, reserved: nat, m': Market, later: nat, reserved': nat)
    requires var d := Evaluate(i, cfg, m, nowMs, reserved); d.Skip? && d.terminal
    requires nowMs <= later
    ensures var d := Evaluate(i, cfg, m', later, reserved'); d.Skip? && d.terminal
  {
  }

  /** The sanity bound, in whole basis points, as a ratio. */
  lemma PlausibleIsExact(profit: int, proceeds: int, maxPlausibleProfitBps: int)
    requires proceeds > 0 && profit > 0
    ensures ((profit * 1_000_000) / proceeds) / 100 <= maxPlausibleProfitBps <==> profit * 10_000 < (maxPlausibleProfitBps + 1) * proceeds
  {
    var x, m := profit * 1_000_000, 100 * (maxPlausibleProfitBps + 1);
    var q := x / proceeds;
    FloorIs2(x, proceeds);
    FloorIs2(q, 100);
    assert m * proceeds == 100 * ((maxPlausibleProfitBps + 1) * proceeds);
    if q < m { MulMono(q + 1, m, proceeds); } else { MulMono(m, q, proceeds); }
  }

  /** The intent is this solver's to fill, and there is time. */
  predicate Fits(i: Intent, cfg: Config, nowMs: nat) {
    && i.sourceChainId == cfg.sourceChainId && nowMs / 1000 + 1920 < i.deadline
    && i.destAsset in cfg.supported && (i.preferred == Anyone || i.preferred == Only(cfg.solver))
  }

  /** Proceeds cover minimum and fees with the margin asked. */
  predicate Earns(i: Intent, cfg: Config, m: Market) {
    && m.pricing.Some?
    && var (proceeds, fees) := m.pricing.value; var profit := proceeds - i.minDestAmount - fees;
       proceeds >= i.minDestAmount && profit > 0 && cfg.minMarginBps * proceeds <= profit * 10_000
  }

  /** The profit is not too good to be true. */
  predicate Plausible(i: Intent, cfg: Config, m: Market) {
    m.pricing.Some?
    && var (proceeds, fees) := m.pricing.value;
       (proceeds - i.minDestAmount - fees) * 10_000 < (cfg.maxPlausibleProfitBps + 1) * proceeds
  }

  predicate Solvent(i: Intent, m: Market, reserved: nat) {
    && reserved + i.minDestAmount <= m.available
    && (m.sourceNative.Some? ==> m.sourceNative.value.1 <= m.sourceNative.value.0)
    && (m.destNative.Some? ==> m.destNative.value.1 <= m.destNative.value.0)
  }

  /** What a skip is called, for the first gate that fails. */
  lemma SkipsFor(i: Intent, cfg: Config, m: Market, nowMs: nat, reserved: nat)
    ensures var d := Evaluate(i, cfg, m, nowMs, reserved);
      d.Skip? ==>
        && (d.code.WrongChain? <==> i.sourceChainId != cfg.sourceChainId)
        && (d.code.Expired? <==> i.sourceChainId == cfg.sourceChainId && i.deadline <= nowMs / 1000 + 1920)
        && (d.code.UnsupportedAsset? ==> i.destAsset !in cfg.supported)
        && (d.code.Reserved? ==> i.preferred != Anyone && i.preferred != Only(cfg.solver))
        && (d.code.PricingError? <==> Fits(i, cfg, nowMs) && m.pricing.None?)
        && (d.code.BelowMargin? <==> Fits(i, cfg, nowMs) && m.pricing.Some? && !Earns(i, cfg, m))
        && (d.code.InsufficientInventory? <==>
              Fits(i, cfg, nowMs) && Earns(i, cfg, m) && Plausible(i, cfg, m) && m.available < reserved + i.minDestAmount)
  {
    OfferedIff(i, cfg, m, nowMs, reserved);
    if m.pricing.Some? && m.pricing.value.0 >= i.minDestAmount && m.pricing.value.0 - i.minDestAmount - m.pricing.value.1 > 0 {
      MarginIsExact(m.pricing.value.0 - i.minDestAmount - m.pricing.value.1, m.pricing.value.0, cfg.minMarginBps);
    }
  }

  /** A fill is offered exactly if the intent fits, earns, is plausible, and can be paid for. */
  lemma OfferedIff(i: Intent, cfg: Config, m: Market, nowMs: nat, reserved: nat)
    ensures var d := Evaluate(i, cfg, m, nowMs, reserved);
      && (d.Fill? <==> Fits(i, cfg, nowMs) && Earns(i, cfg, m) && Plausible(i, cfg, m) && Solvent(i, m, reserved))
      && (d.Skip? && d.code.ImplausibleProfit? <==> Fits(i, cfg, nowMs) && Earns(i, cfg, m) && !Plausible(i, cfg, m))
      && (d.Skip? && d.terminal <==> !Fits(i, cfg, nowMs))
      && (d.Fill? ==> d.profit == m.pricing.value.0 - i.minDestAmount - m.pricing.value.1 && d.fees == m.pricing.value.1)
  {
    if m.pricing.Some? {
      var (proceeds, fees) := m.pricing.value;
      var profit := proceeds - i.minDestAmount - fees;
      if proceeds >= i.minDestAmount && profit > 0 {
        MarginIsExact(profit, proceeds, cfg.minMarginBps);
        PlausibleIsExact(profit, proceeds, cfg.maxPlausibleProfitBps);
      }
    }
  }
}
