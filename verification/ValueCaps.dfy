/**
 * The value caps of lib.rs: a per-intent maximum, and a rolling-window cap that
 * latches on a breach until an admin resets it.
 */
module ValueCaps {
  import opened Arithmetic
  import opened Prelude
  import opened Types

  datatype CapState = CapState(
    maxIntentAmount: Option<i128>,
    duration: Option<u64>,
    cap: Option<i128>,
    triggered: bool,
    resetEarliestAt: Option<u64>,
    buckets: map<u64, i128>,
    latestWindowStart: Option<u64>)
  {
    function Latest(): u64 {
      latestWindowStart.UnwrapOr(0)
    }

    function Bucket(w: u64): i128 {
      if w in buckets then buckets[w] else 0
    }

    /** Both halves of the rolling-window setting are present and positive. */
    predicate WindowOn() {
      duration.Some? && duration.value > 0 && cap.Some? && cap.value > 0
    }
  }

  predicate Aligned(w: int, duration: int)
    requires duration > 0
  {
    w % duration == 0
  }

  /** Start of the aligned window that contains `now`. */
  function WindowStart(now: u64, duration: u64): (w: u64)
    requires duration > 0
    ensures w <= now < w + duration && Aligned(w, duration)
  {
    ModOfMultiple(now / duration, duration);
    assert now == (now / duration) * duration + now % duration;
    MulMono(0, now / duration, duration);
    (now / duration) * duration
  }

  /** On entering a later window, remember it and drop the bucket of the one left behind. */
  function EnterWindow(s: CapState, w: u64): CapState {
    if w > s.Latest() then s.(latestWindowStart := Some(w), buckets := s.buckets - {s.Latest()}) else s
  }

  function Accumulate(s: CapState, w: u64, amount: i128): CapState
    requires -I128_MAX - 1 <= s.Bucket(w) + amount <= I128_MAX
  {
    s.(buckets := s.buckets[w := s.Bucket(w) + amount])
  }

  /**
   * `enforce_value_caps`: `Ok((s, true))` admits the amount; `Ok((s, false))` latches
   * the breaker and has the message acknowledged without registering anything.
   */
  function EnforceValueCaps(s: CapState, amount: i128, now: u64): Result<(CapState, bool), Error> {
    if s.maxIntentAmount.Some? && 0 < s.maxIntentAmount.value < amount then Err(ExceedsMaxIntentAmount)
    else if !s.WindowOn() then Ok((s, true))
    else if s.triggered then Err(RollingWindowCapTriggered)
    else
      var w := WindowStart(now, s.duration.value);
      var s1 := EnterWindow(s, w);
      var accumulated := s1.Bucket(w) + amount;
      if accumulated > I128_MAX || accumulated < -I128_MAX - 1 then Err(ArithmeticError)
      else if accumulated <= s.cap.value then Ok((Accumulate(s1, w, amount), true))
      else if now + s.duration.value >= U64_LIMIT then Err(ArithmeticError)
      else Ok((Accumulate(s1, w, amount).(triggered := true, resetEarliestAt := Some(now + s.duration.value)), false))
  }

  /** `reset_rolling_window_cap`, after the admin check. */
  function ResetRollingWindowCap(s: CapState, now: u64): Result<CapState, Error> {
    if s.resetEarliestAt.Some? && now < s.resetEarliestAt.value then Err(DeadlineNotPassed)
    else
      var s1 := if s.latestWindowStart.Some? then s.(buckets := s.buckets - {s.latestWindowStart.value}) else s;
      var s2 := if s.duration.Some? && s.duration.value > 0
                then s1.(latestWindowStart := Some(WindowStart(now, s.duration.value))) else s1;
      Ok(s2.(triggered := false, resetEarliestAt := None))
  }

  // --- What is admitted, exactly ---------------------------------------------------

  predicate WithinMax(s: CapState, amount: i128) {
    s.maxIntentAmount.Some? && s.maxIntentAmount.value > 0 ==> amount <= s.maxIntentAmount.value
  }

  /** What the window of the hour would hold with this amount. */
  function Total(s: CapState, amount: i128, now: u64): int
    requires s.WindowOn()
  {
    s.Bucket(WindowStart(now, s.duration.value)) + amount
  }

  /** Within the maximum; and with the window on, unlatched and within the cap. */
  predicate Admissible(s: CapState, amount: i128, now: u64) {
    && WithinMax(s, amount)
    && (s.WindowOn() ==> !s.triggered && -I128_MAX - 1 <= Total(s, amount, now) <= s.cap.value)
  }

  /** The unlatched window would overflow its cap, and the time of reset can be told. */
  predicate Breaches(s: CapState, amount: i128, now: u64) {
    && WithinMax(s, amount) && s.WindowOn() && !s.triggered
    && s.cap.value < Total(s, amount, now) <= I128_MAX && now + s.duration.value < U64_LIMIT
  }

  /** Admission, breach and the two refusals, each exactly. */
  lemma AdmitsIff(s: CapState, amount: i128, now: u64)
    ensures var r := EnforceValueCaps(s, amount, now);
      && (r.Ok? && r.value.1 <==> Admissible(s, amount, now))
      && (r.Ok? && !r.value.1 <==> Breaches(s, amount, now))
      && (r == Err(ExceedsMaxIntentAmount) <==> !WithinMax(s, amount))
      && (r == Err(RollingWindowCapTriggered) <==> WithinMax(s, amount) && s.WindowOn() && s.triggered)
  {
    hide WindowStart;
  }

  /** Nothing above a positive maximum passes. */
  lemma WithinMaximum(s: CapState, amount: i128, now: u64)
    requires EnforceValueCaps(s, amount, now).Ok? && s.maxIntentAmount.Some? && s.maxIntentAmount.value > 0
    ensures amount <= s.maxIntentAmount.value
  {
    hide WindowStart;
  }

  /** With the window off an amount is refused exactly if it exceeds a positive maximum. */
  lemma RefusedIffTooLarge(s: CapState, amount: i128, now: u64)
    requires !s.WindowOn()
    ensures EnforceValueCaps(s, amount, now).Err? <==> s.maxIntentAmount.Some? && 0 < s.maxIntentAmount.value < amount
  {
  }

  // --- Runs with one setting ----------------------------------------------------

  /** Registrations are of positive amounts; resets come from the admin. */
  datatype CapOp = Register(now: u64, amount: i128) | Reset(now: u64)

  /** An amount that was admitted, and when. */
  datatype Admission = Admission(now: u64, amount: i128)

  datatype CapRun = CapRun(state: CapState, log: seq<Admission>)

  function Step(r: CapRun, op: CapOp): CapRun {
    match op
    case Register(now, amount) => (
      match EnforceValueCaps(r.state, amount, now)
      case Ok((s, true)) => CapRun(s, r.log + [Admission(now, amount)])
      case Ok((s, false)) => CapRun(s, r.log)
      case Err(_) => r
    )
    case Reset(now) => (
      match ResetRollingWindowCap(r.state, now)
      case Ok(s) => CapRun(s, r.log)
      case Err(_) => r
    )
  }

  function Run(r: CapRun, ops: seq<CapOp>): CapRun {
    if ops == [] then r else Step(Run(r, ops[..|ops| - 1]), ops[|ops| - 1])
  }

  /** Amount admitted at times in `[lo, hi)`. */
  function Admitted(log: seq<Admission>, lo: int, hi: int): int {
    if log == [] then 0
    else
      var a := log[|log| - 1];
      Admitted(log[..|log| - 1], lo, hi) + if lo <= a.now < hi then a.amount else 0
  }

  /** The switch is on and nothing has been counted yet. */
  ghost predicate Fresh(s: CapState) {
    s.WindowOn() && !s.triggered && s.resetEarliestAt.None? && s.buckets == map[] && s.latestWindowStart.None?
  }

  ghost predicate InOrder(ops: seq<CapOp>) {
    forall i, j :: 0 <= i < j < |ops| ==> ops[i].now <= ops[j].now
  }

  ghost predicate PositiveAmounts(ops: seq<CapOp>) {
    forall op <- ops :: op.Register? ==> op.amount > 0
  }

  /**
   * What an admin can look up before a reset: the breaker is latched, or the window of the
   * hour has nothing in its bucket (a window never named keeps its bucket through a reset).
   */
  predicate ResetIsHarmless(s: CapState, now: u64)
    requires s.WindowOn()
  {
    s.triggered || s.latestWindowStart.None? || s.Bucket(WindowStart(now, s.duration.value)) == 0
  }

  ghost predicate ResetsHarmless(r: CapRun, ops: seq<CapOp>) {
    ops == []
    || (var init, op := ops[..|ops| - 1], ops[|ops| - 1]; var s := Run(r, init).state;
        ResetsHarmless(r, init) && (op.Reset? && s.WindowOn() ==> ResetIsHarmless(s, op.now)))
  }

  /** A run from a fresh window: time moves on, amounts are positive, and no reset does harm. */
  ghost predicate Disciplined(s: CapState, ops: seq<CapOp>) {
    Fresh(s) && InOrder(ops) && PositiveAmounts(ops) && ResetsHarmless(CapRun(s, []), ops)
  }

  function TimeOf(ops: seq<CapOp>): u64 {
    if ops == [] then 0 else ops[|ops| - 1].now
  }

  lemma {:induction false} AdmittedSnoc(log: seq<Admission>, a: Admission, lo: int, hi: int)
    ensures Admitted(log + [a], lo, hi) == Admitted(log, lo, hi) + if lo <= a.now < hi then a.amount else 0
  {
    assert (log + [a])[..|log|] == log;
  }

  lemma {:induction false} AdmittedLater(log: seq<Admission>, lo: int, hi: int)
    requires forall a <- log :: a.now < lo
    ensures Admitted(log, lo, hi) == 0
  {
    if log != [] { AdmittedLater(log[..|log| - 1], lo, hi); }
  }

  /** The log so far, as the contract's storage accounts for it. */
  ghost predicate CapInv(r: CapRun, duration: u64, cap: i128, time: u64) {
    && r.state.duration == Some(duration) && r.state.cap == Some(cap) && duration > 0 && cap > 0
    && r.state.Latest() <= time && Aligned(r.state.Latest(), duration)
    && LogInv(r.log, duration, cap, r.state.Latest(), time)
    && (forall w <- r.state.buckets :: w <= r.state.Latest())
    && (if r.state.triggered
        then r.state.resetEarliestAt.Some? && r.state.resetEarliestAt.value >= duration
             && Before(r.log, r.state.resetEarliestAt.value - duration + 1)
        else r.state.resetEarliestAt.None? && BucketCounts(r, duration) && r.state.Bucket(r.state.Latest()) <= cap)
  }

  ghost predicate Before(log: seq<Admission>, limit: int) {
    forall a <- log :: a.now < limit
  }

  ghost predicate LogInv(log: seq<Admission>, duration: u64, cap: i128, latest: u64, time: u64)
    requires duration > 0
  {
    && (forall a <- log :: a.amount > 0)
    && Before(log, time + 1) && Before(log, latest + duration)
    && (forall w :: Aligned(w, duration) ==> Admitted(log, w, w + duration) <= cap)
  }

  ghost predicate BucketCounts(r: CapRun, duration: u64) {
    Admitted(r.log, r.state.Latest(), r.state.Latest() + duration) == r.state.Bucket(r.state.Latest())
  }

  lemma TimePasses(r: CapRun, duration: u64, cap: i128, time: u64, now: u64)
    requires CapInv(r, duration, cap, time) && time <= now
    ensures CapInv(r, duration, cap, now)
  {
  }

  lemma EnterKeepsInv(r: CapRun, duration: u64, cap: i128, now: u64)
    requires CapInv(r, duration, cap, now) && !r.state.triggered
    ensures var w := WindowStart(now, duration); var s := EnterWindow(r.state, w);
      s.Latest() == w && CapInv(CapRun(s, r.log), duration, cap, now)
  {
    hide WindowStart;
    var w := WindowStart(now, duration);
    if w < r.state.Latest() { MultiplesApart(w, r.state.Latest(), duration); }
    if w > r.state.Latest() {
      MultiplesApart(r.state.Latest(), w, duration);
      AdmittedLater(r.log, w, w + duration);
      hide Admitted;
    }
  }

  lemma AdmitKeepsLog(log: seq<Admission>, duration: u64, cap: i128, latest: u64, now: u64, amount: i128)
    requires duration > 0 && LogInv(log, duration, cap, latest, now) && Aligned(latest, duration)
    requires latest <= now < latest + duration && amount > 0
    requires Admitted(log, latest, latest + duration) + amount <= cap
    ensures LogInv(log + [Admission(now, amount)], duration, cap, latest, now)
  {
    var a := Admission(now, amount);
    forall v | Aligned(v, duration) ensures Admitted(log + [a], v, v + duration) <= cap {
      AdmittedSnoc(log, a, v, v + duration);
      if v < latest { MultiplesApart(v, latest, duration); }
      if latest < v { MultiplesApart(latest, v, duration); }
    }
  }

  lemma RegisterKeepsInv(r: CapRun, duration: u64, cap: i128, now: u64, amount: i128)
    requires CapInv(r, duration, cap, now) && amount > 0
    ensures CapInv(Step(r, Register(now, amount)), duration, cap, now)
  {
    if !r.state.triggered && EnforceValueCaps(r.state, amount, now).Ok? {
      EnterKeepsInv(r, duration, cap, now);
      var w := WindowStart(now, duration);
      var s1 := EnterWindow(r.state, w);
      hide WindowStart, EnterWindow, Admitted;
      if EnforceValueCaps(r.state, amount, now).value.1 {
        AdmitKeepsLog(r.log, duration, cap, w, now, amount);
        AdmittedSnoc(r.log, Admission(now, amount), w, w + duration);
      }
    }
  }

  /** A latched breaker may be reset as soon as the code allows it: nothing was admitted since the breach. */
  lemma LatchedResetKeepsInv(r: CapRun, duration: u64, cap: i128, now: u64)
    requires CapInv(r, duration, cap, now) && r.state.triggered
    ensures CapInv(Step(r, Reset(now)), duration, cap, now)
  {
    hide WindowStart, Admitted;
    if ResetRollingWindowCap(r.state, now).Ok? {
      var w := WindowStart(now, duration);
      if w < r.state.Latest() { MultiplesApart(w, r.state.Latest(), duration); }
      AdmittedLater(r.log, w, w + duration);
      var s := ResetRollingWindowCap(r.state, now).value;
      assert s.Latest() == w;
      assert w > 0;
      assert s.Bucket(w) == 0;
    }
  }

  /** What an unlatched reset does to the window of the hour: its bucket is emptied, if the window was ever named. */
  lemma UnlatchedReset(r: CapRun, duration: u64, cap: i128, now: u64)
    requires CapInv(r, duration, cap, now) && !r.state.triggered
    ensures var w := WindowStart(now, duration); var t := Step(r, Reset(now));
      && t.log == r.log && t.state.WindowOn() && !t.state.triggered && t.state.resetEarliestAt.None?
      && t.state.duration == r.state.duration && t.state.cap == r.state.cap && t.state.latestWindowStart == Some(w)
      && (forall v <- t.state.buckets :: v in r.state.buckets && v <= w)
      && t.state.Bucket(w) == (if r.state.latestWindowStart.Some? then 0 else r.state.Bucket(w))
      && Admitted(r.log, w, w + duration) == r.state.Bucket(w)
      && Before(r.log, w + duration)
  {
    hide WindowStart;
    var w := WindowStart(now, duration);
    if w < r.state.Latest() { MultiplesApart(w, r.state.Latest(), duration); }
    if w > r.state.Latest() {
      MultiplesApart(r.state.Latest(), w, duration);
      AdmittedLater(r.log, w, w + duration);
    }
    hide Admitted;
  }

  lemma ResetKeepsInv(r: CapRun, duration: u64, cap: i128, now: u64)
    requires CapInv(r, duration, cap, now) && ResetIsHarmless(r.state, now)
    ensures CapInv(Step(r, Reset(now)), duration, cap, now)
  {
    hide WindowStart, Admitted;
    if r.state.triggered {
      LatchedResetKeepsInv(r, duration, cap, now);
    } else {
      UnlatchedReset(r, duration, cap, now);
      hide Step;
    }
  }

  lemma InvIsOn(r: CapRun, duration: u64, cap: i128, time: u64)
    requires CapInv(r, duration, cap, time)
    ensures r.state.WindowOn() && r.state.duration == Some(duration) && r.state.cap == Some(cap)
  {
  }

  lemma {:induction false} RunKeepsInv(r: CapRun, ops: seq<CapOp>, duration: u64, cap: i128, time: u64)
    requires CapInv(r, duration, cap, time)
    requires InOrder(ops) && PositiveAmounts(ops) && ResetsHarmless(r, ops)
    requires ops != [] ==> time <= ops[0].now
    ensures CapInv(Run(r, ops), duration, cap, if ops == [] then time else ops[|ops| - 1].now)
  {
    hide CapInv, Step, ResetIsHarmless;
    if ops != [] {
      var m := |ops| - 1;
      var init, op := ops[..m], ops[m];
      RunKeepsInv(r, init, duration, cap, time);
      TimePasses(Run(r, init), duration, cap, if init == [] then time else init[m - 1].now, op.now);
      match op
      case Register(now, amount) => RegisterKeepsInv(Run(r, init), duration, cap, now, amount);
      case Reset(now) =>
        InvIsOn(Run(r, init), duration, cap, now);
        ResetKeepsInv(Run(r, init), duration, cap, now);
    }
  }

  lemma {:induction false} AdmittedSplit(log: seq<Admission>, lo: int, mid: int, hi: int)
    requires lo <= mid <= hi
    ensures Admitted(log, lo, hi) == Admitted(log, lo, mid) + Admitted(log, mid, hi)
  {
    if log != [] { AdmittedSplit(log[..|log| - 1], lo, mid, hi); }
  }

  lemma {:induction false} AdmittedNonNegative(log: seq<Admission>, lo: int, hi: int)
    requires forall a <- log :: a.amount > 0
    ensures Admitted(log, lo, hi) >= 0
  {
    if log != [] { AdmittedNonNegative(log[..|log| - 1], lo, hi); }
  }

  lemma FreshInv(s: CapState)
    requires Fresh(s)
    ensures CapInv(CapRun(s, []), s.duration.value, s.cap.value, 0)
  {
  }

  lemma {:induction false} RunSnoc(r: CapRun, ops: seq<CapOp>, op: CapOp)
    ensures Run(r, ops + [op]) == Step(Run(r, ops), op)
  {
    assert (ops + [op])[..|ops|] == ops;
  }

  lemma {:induction false} DisciplinedInv(s: CapState, ops: seq<CapOp>)
    requires Disciplined(s, ops)
    ensures s.WindowOn() && CapInv(Run(CapRun(s, []), ops), s.duration.value, s.cap.value, TimeOf(ops))
  {
    hide CapInv, Run, InOrder, PositiveAmounts, ResetsHarmless;
    FreshInv(s);
    RunKeepsInv(CapRun(s, []), ops, s.duration.value, s.cap.value, 0);
  }

  /** No aligned window admits more than the cap, over any run. */
  lemma {:induction false} WindowNeverExceedsCap(s: CapState, ops: seq<CapOp>, w: u64)
    requires Disciplined(s, ops) && Aligned(w, s.duration.value)
    ensures Admitted(Run(CapRun(s, []), ops).log, w, w + s.duration.value) <= s.cap.value
  {
    hide Run, CapInv, Admitted, InOrder, PositiveAmounts, ResetsHarmless;
    DisciplinedInv(s, ops);
    InvBoundsWindow(Run(CapRun(s, []), ops), s.duration.value, s.cap.value, TimeOf(ops), w);
  }

  lemma {:induction false} InvBoundsWindow(r: CapRun, duration: u64, cap: i128, time: u64, w: int)
    requires CapInv(r, duration, cap, time) && Aligned(w, duration)
    ensures Admitted(r.log, w, w + duration) <= cap
  {
  }

  lemma {:induction false} IntervalCoveredByWindows(log: seq<Admission>, duration: u64, cap: i128, latest: u64, time: u64, t: u64)
    requires duration > 0 && LogInv(log, duration, cap, latest, time)
    ensures Admitted(log, t, t + duration) <= 2 * cap
  {
    var d: int := duration;
    var w: int := WindowStart(t, d);
    NextMultiple(w, d);
    assert Aligned(w + d, d);
    hide Admitted, WindowStart, Aligned;
    AdmittedSplit(log, w, t, w + 2 * d);
    AdmittedSplit(log, t, t + d, w + 2 * d);
    AdmittedSplit(log, w, w + d, w + 2 * d);
    AdmittedNonNegative(log, w, t);
    AdmittedNonNegative(log, t + d, w + 2 * d);
  }

  lemma {:induction false} InvBoundsInterval(r: CapRun, duration: u64, cap: i128, time: u64, t: u64)
    requires CapInv(r, duration, cap, time)
    ensures Admitted(r.log, t, t + duration) <= 2 * cap
  {
    IntervalCoveredByWindows(r.log, duration, cap, r.state.Latest(), time, t);
  }

  /** An interval of one duration that is not aligned admits at most twice the cap. */
  lemma {:induction false} IntervalNeverExceedsTwiceCap(s: CapState, ops: seq<CapOp>, t: u64)
    requires Disciplined(s, ops)
    ensures Admitted(Run(CapRun(s, []), ops).log, t, t + s.duration.value) <= 2 * s.cap.value
  {
    hide Run, CapInv, Admitted, InOrder, PositiveAmounts, ResetsHarmless;
    DisciplinedInv(s, ops);
    InvBoundsInterval(Run(CapRun(s, []), ops), s.duration.value, s.cap.value, TimeOf(ops), t);
  }

  /** A reset the code accepts from a breaker that named `until`. */
  predicate Opens(op: CapOp, until: u64) {
    op.Reset? && op.now >= until
  }

  ghost predicate NoneOpens(ops: seq<CapOp>, until: u64) {
    forall op <- ops :: !Opens(op, until)
  }

  /** Nothing but a late enough reset moves a latched breaker: whatever else is tried leaves its whole state alone. */
  lemma {:induction false} LatchStays(r: CapRun, ops: seq<CapOp>)
    requires r.state.WindowOn() && r.state.triggered && r.state.resetEarliestAt.Some?
    requires NoneOpens(ops, r.state.resetEarliestAt.value)
    ensures Run(r, ops) == r
  {
    if ops != [] {
      var m := |ops| - 1;
      assert ops == ops[..m] + [ops[m]] && ops[m] in ops;
      LatchStays(r, ops[..m]);
    }
  }

  lemma LatchOpens(r: CapRun, op: CapOp)
    requires r.state.triggered && r.state.resetEarliestAt.Some? && Opens(op, r.state.resetEarliestAt.value)
    ensures !Step(r, op).state.triggered
  {
  }

  /** A breaker stays latched through a run exactly if the run holds no reset from the named time on. */
  lemma {:induction false} LatchHolds(r: CapRun, ops: seq<CapOp>)
    requires r.state.WindowOn() && r.state.triggered && r.state.resetEarliestAt.Some?
    ensures (forall k :: 0 <= k <= |ops| ==> Run(r, ops[..k]).state.triggered) <==> NoneOpens(ops, r.state.resetEarliestAt.value)
    ensures NoneOpens(ops, r.state.resetEarliestAt.value) ==> Run(r, ops) == r
  {
    var until := r.state.resetEarliestAt.value;
    if NoneOpens(ops, until) {
      forall k | 0 <= k <= |ops| ensures Run(r, ops[..k]) == r { LatchStays(r, ops[..k]); }
      assert ops[..|ops|] == ops;
    } else {
      var j := FirstOpening(ops, until);
      LatchStays(r, ops[..j]);
      assert ops[..j + 1] == ops[..j] + [ops[j]];
      RunSnoc(r, ops[..j], ops[j]);
      LatchOpens(r, ops[j]);
      hide Run, Step;
    }
  }

  lemma {:induction false} FirstOpening(ops: seq<CapOp>, until: u64) returns (j: nat)
    requires !NoneOpens(ops, until)
    ensures j < |ops| && Opens(ops[j], until) && NoneOpens(ops[..j], until)
  {
    var m := |ops| - 1;
    assert ops == ops[..m] + [ops[m]];
    if NoneOpens(ops[..m], until) {
      j := m;
    } else {
      j := FirstOpening(ops[..m], until);
      assert ops[..m][..j] == ops[..j];
    }
  }

  /** Whatever a latched breaker ever registers again comes after such a reset, and no earlier than the named time. */
  lemma {:induction false} RegistersOnlyAfterReset(r: CapRun, ops: seq<CapOp>)
    requires r.state.WindowOn() && r.state.triggered && r.state.resetEarliestAt.Some? && InOrder(ops)
    ensures var until := r.state.resetEarliestAt.value; var after := Run(r, ops);
      && (after.log != r.log ==> !NoneOpens(ops, until))
      && r.log <= after.log && (forall i :: |r.log| <= i < |after.log| ==> after.log[i].now >= until)
  {
    var until := r.state.resetEarliestAt.value;
    if NoneOpens(ops, until) {
      LatchStays(r, ops);
    } else {
      var m := |ops| - 1;
      RegistersOnlyAfterReset(r, ops[..m]);
      var j := FirstOpening(ops, until);
      assert ops[j].now <= ops[m].now;
    }
  }

  /** A breach itself admits nothing and opens again one full duration later. */
  lemma BreachLatches(s: CapState, amount: i128, now: u64)
    requires EnforceValueCaps(s, amount, now).Ok? && !EnforceValueCaps(s, amount, now).value.1
    ensures var s' := EnforceValueCaps(s, amount, now).value.0;
      s.WindowOn() && s'.WindowOn() && s'.triggered && s'.resetEarliestAt == Some(now + s.duration.value)
  {
  }

  lemma StepWithinMax(r: CapRun, op: CapOp, max: i128)
    requires r.state.maxIntentAmount == Some(max) && max > 0 && forall a <- r.log :: a.amount <= max
    ensures var t := Step(r, op); t.state.maxIntentAmount == Some(max) && forall a <- t.log :: a.amount <= max
  {
    hide WindowStart;
    if op.Register? && EnforceValueCaps(r.state, op.amount, op.now).Ok? { WithinMaximum(r.state, op.amount, op.now); }
  }

  /** Along any run under one positive maximum, no admission is above it. */
  lemma {:induction false} RunWithinMax(r: CapRun, ops: seq<CapOp>, max: i128)
    requires r.state.maxIntentAmount == Some(max) && max > 0 && forall a <- r.log :: a.amount <= max
    ensures var t := Run(r, ops); t.state.maxIntentAmount == Some(max) && forall a <- t.log :: a.amount <= max
  {
    hide Step;
    if ops != [] {
      RunWithinMax(r, ops[..|ops| - 1], max);
      StepWithinMax(Run(r, ops[..|ops| - 1]), ops[|ops| - 1], max);
    }
  }

  // --- How many buckets -------------------------------------------------------

  /** No bucket but that of the latest window, which is zero until one is named. */
  ghost predicate Anchored(s: CapState) {
    s.buckets.Keys <= {s.Latest()}
  }

  /** A reset that names a later window while the bucket of time zero was never named, so that nobody removes it. */
  predicate Strands(s: CapState, op: CapOp) {
    && op.Reset? && s.latestWindowStart.None? && 0 in s.buckets
    && s.duration.Some? && 0 < s.duration.value <= op.now
    && (s.resetEarliestAt.Some? ==> op.now >= s.resetEarliestAt.value)
  }

  /** The setting, and a clock that has not run backwards. */
  ghost predicate OnTime(s: CapState, duration: u64, cap: i128, now: u64) {
    && s.duration == Some(duration) && s.cap == Some(cap) && duration > 0 && cap > 0
    && s.Latest() <= now && Aligned(s.Latest(), duration)
  }

  lemma StepOnTime(r: CapRun, op: CapOp, duration: u64, cap: i128)
    requires OnTime(r.state, duration, cap, op.now)
    ensures OnTime(Step(r, op).state, duration, cap, op.now)
  {
    hide WindowStart;
    var w := WindowStart(op.now, duration);
  }

  /** One step breaks the one-bucket promise if and only if it strands the bucket of time zero. */
  lemma BreaksAnchorIffStrands(r: CapRun, op: CapOp, duration: u64, cap: i128)
    requires OnTime(r.state, duration, cap, op.now) && Anchored(r.state)
    ensures Anchored(Step(r, op).state) <==> !Strands(r.state, op)
  {
    hide WindowStart;
    var w := WindowStart(op.now, duration);
    if w < r.state.Latest() { MultiplesApart(w, r.state.Latest(), duration); }
    if 0 < w { MultiplesApart(0, w, duration); }
    if Strands(r.state, op) { assert 0 in Step(r, op).state.buckets; }
  }

  /** The bucket of time zero and that of a later latest window, and no others. */
  ghost predicate Stranded(s: CapState) {
    s.Latest() > 0 && 0 in s.buckets && s.buckets.Keys <= {0, s.Latest()}
  }

  lemma StrandingStrands(r: CapRun, op: CapOp, duration: u64, cap: i128)
    requires OnTime(r.state, duration, cap, op.now) && Anchored(r.state) && Strands(r.state, op)
    ensures Stranded(Step(r, op).state)
  {
    hide WindowStart;
    var w := WindowStart(op.now, duration);
    if w == 0 { assert false; }
  }

  lemma StrandedForever(r: CapRun, op: CapOp, duration: u64, cap: i128)
    requires OnTime(r.state, duration, cap, op.now) && Stranded(r.state)
    ensures Stranded(Step(r, op).state)
  {
    hide WindowStart;
    var w := WindowStart(op.now, duration);
    if w < r.state.Latest() { MultiplesApart(w, r.state.Latest(), duration); }
  }

  ghost predicate StrandsInRun(r: CapRun, ops: seq<CapOp>) {
    ops != []
    && (var m := |ops| - 1; StrandsInRun(r, ops[..m]) || Strands(Run(r, ops[..m]).state, ops[m]))
  }

  /** Over any run whose clock does not run backwards, every state is anchored until a step strands, and never again. */
  lemma {:induction false} AnchoredUntilStranded(s: CapState, ops: seq<CapOp>)
    requires Fresh(s) && InOrder(ops)
    ensures var t := Run(CapRun(s, []), ops).state;
      && OnTime(t, s.duration.value, s.cap.value, TimeOf(ops))
      && (if StrandsInRun(CapRun(s, []), ops) then Stranded(t) else Anchored(t))
  {
    if ops != [] {
      var m := |ops| - 1;
      var d, cap := s.duration.value, s.cap.value;
      AnchoredUntilStranded(s, ops[..m]);
      var here := Run(CapRun(s, []), ops[..m]);
      if m > 0 { assert TimeOf(ops[..m]) == ops[m - 1].now <= ops[m].now; }
      hide Strands, Step, Stranded, Anchored;
      StepOnTime(here, ops[m], d, cap);
      if StrandsInRun(CapRun(s, []), ops[..m]) {
        StrandedForever(here, ops[m], d, cap);
      } else {
        BreaksAnchorIffStrands(here, ops[m], d, cap);
        if Strands(here.state, ops[m]) { StrandingStrands(here, ops[m], d, cap); }
      }
    }
  }

  /** Two buckets exist exactly if a step of the run stranded one and the latest window has its own; never three. */
  lemma {:induction false} HowManyBuckets(s: CapState, ops: seq<CapOp>)
    requires Fresh(s) && InOrder(ops)
    ensures var r := CapRun(s, []); var t := Run(r, ops).state;
      |t.buckets| == (if StrandsInRun(r, ops) then 1 else 0) + (if t.Latest() in t.buckets then 1 else 0)
  {
    hide Run, StrandsInRun;
    AnchoredUntilStranded(s, ops);
    var t := Run(CapRun(s, []), ops).state;
    var named := if t.Latest() in t.buckets then {t.Latest()} else {};
    assert t.buckets.Keys == if StrandsInRun(CapRun(s, []), ops) then {0} + named else named;
    assert |t.buckets| == |t.buckets.Keys|;
  }

  /** The one-bucket promise holds along a whole run, next registration included, exactly if no step of it strands. */
  lemma {:induction false} OneBucketIffNothingStrands(s: CapState, ops: seq<CapOp>)
    requires Fresh(s) && InOrder(ops)
    ensures (forall k :: 0 <= k <= |ops| ==> NextHasOneBucket(s, ops[..k])) <==> !StrandsInRun(CapRun(s, []), ops)
  {
    hide Run, Strands, StrandsInRun, NextHasOneBucket;
    var r := CapRun(s, []);
    if StrandsInRun(r, ops) {
      var j := FirstStranding(r, ops);
      assert ops[..j + 1] == ops[..j] + [ops[j]];
      StrandedHasTwo(s, ops[..j], ops[j]);
    } else {
      forall k | 0 <= k <= |ops| ensures NextHasOneBucket(s, ops[..k]) {
        NotYetStranded(r, ops, k);
        UnstrandedHasOne(s, ops[..k]);
      }
    }
  }

  lemma {:induction false} UnstrandedHasOne(s: CapState, ops: seq<CapOp>)
    requires Fresh(s) && InOrder(ops) && !StrandsInRun(CapRun(s, []), ops)
    ensures NextHasOneBucket(s, ops)
  {
    hide Run, Strands, StrandsInRun;
    var unit := Register(TimeOf(ops), 1);
    assert InOrder(ops + [unit]) by {
      assert forall i :: 0 <= i < |ops| ==> (ops + [unit])[i] == ops[i] && ops[i].now <= TimeOf(ops);
    }
    StrandsSnoc(CapRun(s, []), ops, unit);
    RegisterStrandsNothing(Run(CapRun(s, []), ops).state, unit);
    HowManyBuckets(s, ops);
    HowManyBuckets(s, ops + [unit]);
  }

  lemma RegisterStrandsNothing(s: CapState, op: CapOp)
    requires op.Register?
    ensures !Strands(s, op)
  {
  }

  /** One bucket at most now, and after one more unit is registered. */
  ghost predicate NextHasOneBucket(s: CapState, ops: seq<CapOp>) {
    var r := CapRun(s, []);
    |Run(r, ops).state.buckets| <= 1 && |Run(r, ops + [Register(TimeOf(ops), 1)]).state.buckets| <= 1
  }

  lemma {:induction false} FirstStranding(r: CapRun, ops: seq<CapOp>) returns (j: nat)
    requires StrandsInRun(r, ops)
    ensures j < |ops| && !StrandsInRun(r, ops[..j]) && Strands(Run(r, ops[..j]).state, ops[j])
  {
    var m := |ops| - 1;
    if StrandsInRun(r, ops[..m]) {
      j := FirstStranding(r, ops[..m]);
      assert ops[..m][..j] == ops[..j];
    } else {
      j := m;
    }
  }

  lemma {:induction false} NotYetStranded(r: CapRun, ops: seq<CapOp>, k: nat)
    requires !StrandsInRun(r, ops) && k <= |ops|
    ensures !StrandsInRun(r, ops[..k])
  {
    if k == |ops| {
      assert ops[..k] == ops;
    } else {
      NotYetStranded(r, ops[..|ops| - 1], k);
      assert ops[..|ops| - 1][..k] == ops[..k];
    }
  }

  lemma {:induction false} StrandedHasTwo(s: CapState, ops: seq<CapOp>, op: CapOp)
    requires Fresh(s) && InOrder(ops + [op]) && !StrandsInRun(CapRun(s, []), ops)
    requires Strands(Run(CapRun(s, []), ops).state, op)
    ensures !NextHasOneBucket(s, ops + [op])
  {
    hide Run, Step, Strands, OnTime, Anchored;
    var r := CapRun(s, []);
    var ops1, unit := ops + [op], Register(op.now, 1);
    var next := ops1 + [unit];
    OrderedPrefix(ops, op);
    OrderedUnit(ops, op);
    StrandsSnoc(r, ops, op);
    StrandsSnoc(r, ops1, unit);
    AnchoredUntilStranded(s, ops);
    LaterOnTime(Run(r, ops).state, s.duration.value, s.cap.value, TimeOf(ops), op.now);
    ResetThenRegister(Run(r, ops), s.duration.value, s.cap.value, op);
    RunSnoc(r, ops, op);
    RunSnoc(r, ops1, unit);
    HowManyBuckets(s, next);
  }

  lemma OrderedPrefix(ops: seq<CapOp>, op: CapOp)
    requires InOrder(ops + [op])
    ensures InOrder(ops) && TimeOf(ops) <= op.now && TimeOf(ops + [op]) == op.now
  {
    assert forall i :: 0 <= i < |ops| ==> (ops + [op])[i] == ops[i];
    assert (ops + [op])[|ops|] == op;
  }

  lemma OrderedUnit(ops: seq<CapOp>, op: CapOp)
    requires InOrder(ops + [op])
    ensures InOrder(ops + [op] + [Register(op.now, 1)])
  {
    var ops1 := ops + [op];
    assert ops1[|ops|] == op;
    assert forall i :: 0 <= i < |ops1| ==> (ops1 + [Register(op.now, 1)])[i] == ops1[i];
  }

  lemma {:induction false} StrandsSnoc(r: CapRun, ops: seq<CapOp>, op: CapOp)
    ensures StrandsInRun(r, ops + [op]) <==> StrandsInRun(r, ops) || Strands(Run(r, ops).state, op)
  {
    assert (ops + [op])[..|ops|] == ops;
  }

  lemma LaterOnTime(s: CapState, duration: u64, cap: i128, time: u64, now: u64)
    requires OnTime(s, duration, cap, time) && time <= now
    ensures OnTime(s, duration, cap, now)
  {
  }

  lemma ResetThenRegister(r: CapRun, duration: u64, cap: i128, op: CapOp)
    requires OnTime(r.state, duration, cap, op.now) && Anchored(r.state) && Strands(r.state, op)
    ensures var t := Step(Step(r, op), Register(op.now, 1)).state; t.Latest() in t.buckets
  {
    hide WindowStart;
    var w := WindowStart(op.now, duration);
    assert Step(r, op).state.Bucket(w) == 0;
  }

  /** From one duration after time zero on nothing strands: the first window is named before it has a bucket. */
  lemma {:induction false} LateClockNeverStrands(s: CapState, ops: seq<CapOp>)
    requires Fresh(s) && InOrder(ops)
    requires forall op <- ops :: op.now >= s.duration.value
    ensures !StrandsInRun(CapRun(s, []), ops)
    ensures var t := Run(CapRun(s, []), ops).state; t.latestWindowStart.None? ==> t.buckets == map[]
  {
    if ops != [] {
      var m := |ops| - 1;
      LateClockNeverStrands(s, ops[..m]);
      AnchoredUntilStranded(s, ops[..m]);
      assert ops[m] in ops;
      NamedBeforeFilled(Run(CapRun(s, []), ops[..m]), ops[m], s.duration.value, s.cap.value) by {
        if m > 0 { assert TimeOf(ops[..m]) == ops[m - 1].now <= ops[m].now; }
      }
      hide Step;
    }
  }

  lemma NamedBeforeFilled(r: CapRun, op: CapOp, duration: u64, cap: i128)
    requires OnTime(r.state, duration, cap, op.now) && op.now >= duration
    requires r.state.latestWindowStart.None? ==> r.state.buckets == map[]
    ensures var t := Step(r, op).state; t.latestWindowStart.None? ==> t.buckets == map[]
    ensures !Strands(r.state, op)
  {
    hide WindowStart;
    var w := WindowStart(op.now, duration);
    assert w > 0;
  }

  lemma {:induction false} AtMostOneBucket(s: CapState, ops: seq<CapOp>)
    requires Fresh(s) && InOrder(ops)
    requires forall op <- ops :: op.now >= s.duration.value
    ensures |Run(CapRun(s, []), ops).state.buckets| <= 1
  {
    LateClockNeverStrands(s, ops);
    HowManyBuckets(s, ops);
  }

  // --- When a reset does harm ------------------------------------------------------

  function Units(now: u64, n: nat): (ops: seq<CapOp>)
    ensures |ops| == n
  {
    if n == 0 then [] else Units(now, n - 1) + [Register(now, 1)]
  }

  lemma {:induction false} RegistersHarmless(r: CapRun, ops: seq<CapOp>)
    requires forall op <- ops :: op.Register?
    ensures ResetsHarmless(r, ops)
  {
    hide Run, ResetIsHarmless;
    if ops != [] {
      assert ops[|ops| - 1] in ops;
      RegistersHarmless(r, ops[..|ops| - 1]);
    }
  }

  lemma {:induction false} UnitsShape(now: u64, n: nat)
    ensures forall op <- Units(now, n) :: op == Register(now, 1)
    ensures InOrder(Units(now, n)) && PositiveAmounts(Units(now, n))
  {
    if n > 0 { UnitsShape(now, n - 1); }
    assert forall i :: 0 <= i < n ==> Units(now, n)[i] in Units(now, n);
  }

  /** The latest window is the one of the hour, unlatched, holding `n`. */
  ghost predicate Holds(s: CapState, duration: u64, cap: i128, w: u64, n: nat) {
    && s.WindowOn() && s.duration == Some(duration) && s.cap == Some(cap)
    && !s.triggered && s.latestWindowStart == Some(w) && s.Bucket(w) == n
  }

  lemma UnitStep(r: CapRun, duration: u64, cap: i128, w: u64, n: nat, now: u64)
    requires Holds(r.state, duration, cap, w, n) && n < cap && w == WindowStart(now, duration)
    ensures var t := Step(r, Register(now, 1)); Holds(t.state, duration, cap, w, n + 1) && t.log == r.log + [Admission(now, 1)]
  {
    hide WindowStart;
  }

  /** A window with an empty bucket takes the whole cap, unit by unit, whatever the per-intent maximum. */
  lemma {:induction false} UnitsFill(r: CapRun, duration: u64, cap: i128, w: u64, now: u64, n: nat)
    requires duration > 0 && Holds(r.state, duration, cap, w, 0) && n <= cap && w == WindowStart(now, duration)
    ensures var t := Run(r, Units(now, n));
      && Holds(t.state, duration, cap, w, n)
      && Admitted(t.log, w, w + duration) == Admitted(r.log, w, w + duration) + n
  {
    hide WindowStart, Admitted, Holds, Step, Run;
    if n == 0 {
      RunNothing(r);
    } else {
      UnitsFill(r, duration, cap, w, now, n - 1);
      var here := Run(r, Units(now, n - 1));
      RunSnoc(r, Units(now, n - 1), Register(now, 1));
      UnitStep(here, duration, cap, w, n - 1, now);
      InWindow(now, duration);
      AdmittedSnoc(here.log, Admission(now, 1), w, w + duration);
    }
  }

  lemma InWindow(now: u64, duration: u64)
    requires duration > 0
    ensures WindowStart(now, duration) <= now < WindowStart(now, duration) + duration
  {
  }

  /** Nothing that may follow pushes any window over the cap. */
  ghost predicate StaysCapped(r: CapRun, duration: u64, cap: i128, now: u64)
    requires duration > 0
  {
    forall more: seq<CapOp>, v: int ::
      Follows(r, more, now) && Aligned(v, duration) ==> Admitted(Run(r, more).log, v, v + duration) <= cap
  }

  ghost predicate Follows(r: CapRun, more: seq<CapOp>, now: u64) {
    InOrder(more) && PositiveAmounts(more) && ResetsHarmless(r, more) && (more != [] ==> now <= more[0].now)
  }

  /** A reset keeps the cap, for everything that may follow it, if and only if it is harmless when it is called. */
  lemma {:induction false} ResetKeepsCapIffHarmless(s: CapState, ops: seq<CapOp>, now: u64)
    requires Disciplined(s, ops) && TimeOf(ops) <= now
    ensures var r := Run(CapRun(s, []), ops);
      && r.state.WindowOn() && r.state.duration == s.duration
      && (ResetIsHarmless(r.state, now) <==> StaysCapped(Step(r, Reset(now)), s.duration.value, s.cap.value, now))
  {
    var d, cap := s.duration.value, s.cap.value;
    var r := Run(CapRun(s, []), ops);
    DisciplinedInv(s, ops);
    TimePasses(r, d, cap, TimeOf(ops), now);
    InvIsOn(r, d, cap, now);
    hide *;
    if ResetIsHarmless(r.state, now) {
      HarmlessStaysCapped(r, d, cap, now);
    } else {
      HarmfulBreaksCap(r, d, cap, now);
    }
  }

  lemma {:induction false} HarmlessStaysCapped(r: CapRun, duration: u64, cap: i128, now: u64)
    requires CapInv(r, duration, cap, now) && r.state.WindowOn() && ResetIsHarmless(r.state, now) && duration > 0
    ensures StaysCapped(Step(r, Reset(now)), duration, cap, now)
  {
    hide CapInv, Run, Admitted, Step, InOrder, PositiveAmounts, ResetsHarmless, ResetIsHarmless, Aligned;
    var t := Step(r, Reset(now));
    ResetKeepsInv(r, duration, cap, now);
    forall more: seq<CapOp>, v: int | Follows(t, more, now) && Aligned(v, duration)
      ensures Admitted(Run(t, more).log, v, v + duration) <= cap
    {
      RunKeepsInv(t, more, duration, cap, now);
      InvBoundsWindow(Run(t, more), duration, cap, if more == [] then now else more[|more| - 1].now, v);
    }
  }

  lemma {:induction false} HarmfulBreaksCap(r: CapRun, duration: u64, cap: i128, now: u64)
    requires CapInv(r, duration, cap, now) && r.state.WindowOn() && !ResetIsHarmless(r.state, now) && duration > 0
    ensures !StaysCapped(Step(r, Reset(now)), duration, cap, now)
  {
    hide CapInv, Run, Admitted, Step, InOrder, PositiveAmounts, ResetsHarmless, WindowStart, ResetIsHarmless, Aligned, Holds;
    var t := Step(r, Reset(now));
    var w := WindowStart(now, duration);
    HarmfulReset(r, duration, cap, now);
    UnitsShape(now, cap);
    RegistersHarmless(t, Units(now, cap));
    UnitsFill(t, duration, cap, w, now, cap);
    assert Units(now, cap)[0] in Units(now, cap);
    assert Follows(t, Units(now, cap), now);
    WindowIsAligned(now, duration);
  }

  lemma WindowIsAligned(now: u64, duration: u64)
    requires duration > 0
    ensures Aligned(WindowStart(now, duration), duration)
  {
  }

  /** A harmful reset leaves an empty bucket for a window that has admitted something. */
  lemma HarmfulReset(r: CapRun, duration: u64, cap: i128, now: u64)
    requires CapInv(r, duration, cap, now) && r.state.WindowOn() && !ResetIsHarmless(r.state, now) && duration > 0
    ensures cap > 0
    ensures var t := Step(r, Reset(now)); var w := WindowStart(now, duration);
      Holds(t.state, duration, cap, w, 0) && Admitted(t.log, w, w + duration) > 0
  {
    hide Admitted, WindowStart, Step;
    UnlatchedReset(r, duration, cap, now);
    AdmittedNonNegative(r.log, WindowStart(now, duration), WindowStart(now, duration) + duration);
  }

  // --- Witnesses --------------------------------------------------------------------

  /** A hundred-second window with a cap of ten. */
  const SMALL := CapState(None, Some(100), Some(10), false, None, map[], None)

  /**
   * The harm in numbers: a reset while the breaker is not latched empties the running
   * bucket, and the same window then admits the cap a second time.
   */
  lemma {:induction false} UnlatchedResetDoublesWindow(s: CapState, ops: seq<CapOp>)
    requires s == SMALL && ops == [Register(1000, 10), Reset(1001), Register(1002, 10)]
    ensures Fresh(s) && InOrder(ops) && PositiveAmounts(ops)
    ensures Admitted(Run(CapRun(s, []), ops).log, 1000, 1100) == 20
  {
    var r := CapRun(s, []);
    var o1, o2, o3 := ops[0], ops[1], ops[2];
    var a1, a3 := Admission(1000, 10), Admission(1002, 10);
    var s1 := s.(latestWindowStart := Some(1000), buckets := map[1000 := 10]);
    assert EnforceValueCaps(s, 10, 1000) == Ok((s1, true));
    var s2 := s1.(buckets := map[]);
    assert ResetRollingWindowCap(s1, 1001) == Ok(s2);
    assert EnforceValueCaps(s2, 10, 1002) == Ok((s1, true));
    assert Admitted(Run(r, ops).log, 1000, 1100) == 20 by {
      hide EnforceValueCaps, ResetRollingWindowCap, Admitted, Run;
      RunSnoc(r, [], o1);
      RunSnoc(r, [o1], o2);
      RunSnoc(r, [o1, o2], o3);
      RunNothing(r);
      assert ops == [o1, o2] + [o3] && [o1, o2] == [o1] + [o2] && [o1] == [] + [o1];
      assert Run(r, ops).log == [] + [a1] + [a3];
      AdmittedNothing(1000, 1100);
      AdmittedSnoc([], a1, 1000, 1100);
      AdmittedSnoc([] + [a1], a3, 1000, 1100);
    }
  }

  lemma RunNothing(r: CapRun)
    ensures Run(r, []) == r
  {
  }

  lemma AdmittedNothing(lo: int, hi: int)
    ensures Admitted([], lo, hi) == 0
  {
  }

  lemma {:induction false} HarmlessSnoc(r: CapRun, ops: seq<CapOp>, op: CapOp)
    ensures ResetsHarmless(r, ops + [op]) <==>
      ResetsHarmless(r, ops) && (op.Reset? && Run(r, ops).state.WindowOn() ==> ResetIsHarmless(Run(r, ops).state, op.now))
  {
    assert (ops + [op])[..|ops|] == ops;
  }

  lemma BreachAtFive(s: CapState)
    requires s == SMALL.(buckets := map[0 := 11], triggered := true, resetEarliestAt := Some(105))
    ensures EnforceValueCaps(SMALL, 11, 5) == Ok((s, false))
  {
  }

  lemma ResetAt105(s: CapState)
    requires s == SMALL.(buckets := map[0 := 11], triggered := true, resetEarliestAt := Some(105))
    ensures ResetRollingWindowCap(s, 105) == Ok(SMALL.(buckets := map[0 := 11], latestWindowStart := Some(100)))
  {
  }

  lemma RegisterAt106(s: CapState)
    requires s == SMALL.(buckets := map[0 := 11], latestWindowStart := Some(100))
    ensures EnforceValueCaps(s, 1, 106) == Ok((s.(buckets := map[0 := 11, 100 := 1]), true))
  {
  }

  /** A breach within the first duration after time zero, reset in time, leaves a bucket nobody removes. */
  lemma {:induction false} EarlyBreachLeavesBucket(s: CapState, ops: seq<CapOp>)
    requires s == SMALL && ops == [Register(5, 11), Reset(105), Register(106, 1)]
    ensures Disciplined(s, ops) && StrandsInRun(CapRun(s, []), ops)
    ensures |Run(CapRun(s, []), ops).state.buckets| == 2
  {
    var r := CapRun(s, []);
    var o1, o2, o3 := ops[0], ops[1], ops[2];
    var breached := s.(buckets := map[0 := 11], triggered := true, resetEarliestAt := Some(105));
    assert ops == [o1, o2] + [o3] && [o1, o2] == [o1] + [o2] && [o1] == [] + [o1];
    assert Disciplined(s, ops) && StrandsInRun(r, ops) && |Run(r, ops).state.buckets| == 2 by {
      hide EnforceValueCaps, ResetRollingWindowCap, Run;
      BreachAtFive(breached);
      ResetAt105(breached);
      RegisterAt106(SMALL.(buckets := map[0 := 11], latestWindowStart := Some(100)));
      RunNothing(r);
      RunSnoc(r, [], o1);
      RunSnoc(r, [o1], o2);
      RunSnoc(r, [o1, o2], o3);
      HarmlessSnoc(r, [], o1);
      HarmlessSnoc(r, [o1], o2);
      HarmlessSnoc(r, [o1, o2], o3);
      StrandsSnoc(r, [o1], o2);
      StrandsSnoc(r, [o1, o2], o3);
    }
  }

  /** A bucket of time zero alone strands nothing: it goes when the next window is entered. */
  lemma {:induction false} EarlyBucketGoes(s: CapState, ops: seq<CapOp>)
    requires s == SMALL && ops == [Register(5, 1), Register(106, 1)]
    ensures Run(CapRun(s, []), ops).state.buckets == map[100 := 1]
  {
    var r := CapRun(s, []);
    var s1 := s.(buckets := map[0 := 1]);
    assert EnforceValueCaps(s, 1, 5) == Ok((s1, true));
    assert EnforceValueCaps(s1, 1, 106) == Ok((s.(buckets := map[100 := 1], latestWindowStart := Some(100)), true));
    assert ops == [ops[0]] + [ops[1]] && [ops[0]] == [] + [ops[0]];
    hide EnforceValueCaps, Run;
    RunNothing(r);
    RunSnoc(r, [], ops[0]);
    RunSnoc(r, [ops[0]], ops[1]);
  }
}
