/** The solver's deadline gate (quote.ts) against the settlement contract's (lib.rs). */
module Headroom {
  import opened Prelude
  import Quote
  import Settlement

  /** The contract's own gate in `validate_and_stage_fill`. */
  predicate ContractStillAccepts(ledgerTime: u64, deadline: u64) {
    SatAdd64(ledgerTime, Settlement.MIN_DISPATCH_WINDOW) <= deadline
  }

  /**
   * An intent the solver offers to fill is still fillable on Stellar for two minutes
   * after the quote, and two minutes is all the quote promises.
   */
  lemma QuoteOutlastsTheLock(i: Quote.Intent, cfg: Quote.Config, m: Quote.Market, nowMs: nat, reserved: nat, ledgerTime: u64)
    requires Quote.Evaluate(i, cfg, m, nowMs, reserved).Fill? && i.deadline < U64_LIMIT
    requires ledgerTime <= nowMs / 1000 + 121
    ensures ContractStillAccepts(ledgerTime, i.deadline)
  {
    Quote.FillIsCovered(i, cfg, m, nowMs, reserved);
  }
}
