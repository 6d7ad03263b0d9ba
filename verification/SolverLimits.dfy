/**
 * When the solver calls its executor, exactly; how long it waits after a failure; and the
 * breaker that halts it on implausible prices.
 */
module SolverLimits {
  import opened Prelude
  import opened OrderedSet
  import opened Lru
  import opened Commitments
  import opened Solving
  import opened Spellings
  import Quote

  // --- When a fill is called -------------------------------------------------------------

  predicate Alive<V>(c: Cache<V>, h: Hash, now: int) {
    h in c.entries && now <= c.entries[h].deadlineMs
  }

  /** Not halted, not retired, not waiting: this record is looked at. */
  predicate LooksAt(s: State, r: Record, tickNow: nat, t: Turn) {
    && !s.halted && !Alive(s.seen, r.hash, t.at)
    && (Alive(s.retry, r.hash, t.at) ==> s.retry.entries[r.hash].value.nextRetryAt <= tickNow)
  }

  /** The executor is called exactly on a record that is looked at, carries its hash's own intent, verifies, and is offered a fill. */
  lemma CallsIff(cfg: Config, w: World, s: State, r: Record, tickNow: nat, t: Turn)
    ensures var v := Visit(cfg, w, s, r, tickNow, t);
      if LooksAt(s, r, tickNow, t) && r.intent == w(r.hash) && t.valid && Decide(cfg, s, r, t).Fill?
      then v.calls == s.calls + [r.hash] && v.wins == (if t.outcome.Filled? then s.wins + [r.hash] else s.wins)
      else v.calls == s.calls && v.wins == s.wins
  {
    hide Drop, Put, Quote.Evaluate, Reserve, Hold, Release, Without;
  }

  /** What is retired for good: a record not its hash's own, a terminal skip, a win, a fill lost to another, and a fourth failure. */
  predicate Retires(cfg: Config, w: World, s: State, r: Record, tickNow: nat, t: Turn) {
    && LooksAt(s, r, tickNow, t)
    && (|| r.intent != w(r.hash)
        || (t.valid && match Decide(cfg, s, r, t)
            case Skip(code, terminal) => terminal && !code.ImplausibleProfit?
            case Fill(_, _, _) =>
              || t.outcome.Filled? || t.outcome.LockedByOther?
              || (!t.outcome.FatalFailure? && LastTry(s, r.hash, t))))
  }

  /** Three failures are on record when this one comes back. */
  predicate LastTry(s: State, h: Hash, t: Turn) {
    Alive(s.retry, h, t.after) && s.retry.entries[h].value.attempts >= 3
  }

  /** A hash is remembered as seen exactly if this turn retires it; and then for ten minutes at least, and to its deadline. */
  lemma RetiresIff(cfg: Config, w: World, s: State, r: Record, tickNow: nat, t: Turn)
    requires t.at <= t.evalAt <= t.after && !s.halted && !Alive(s.seen, r.hash, t.at)
    ensures var v := Visit(cfg, w, s, r, tickNow, t);
      && (r.hash in v.seen.entries <==> Retires(cfg, w, s, r, tickNow, t))
      && (r.hash in v.seen.entries ==> Remembered(v, r, t))
  {
    hide Attempt, Quote.Evaluate, Without, LastTry, Put, Drop, Find;
    FindPlain(s.seen, r.hash, t.at);
    FindPlain(s.retry, r.hash, t.at);
    var s1 := s.(seen := Find(s.seen, r.hash, t.at).0, retry := Find(s.retry, r.hash, t.at).0);
    AttemptRetires(cfg, s1, r, t);
    LastTryLooked(s, s1, r.hash, t);
    PutPlain(s1.seen, cfg.maxSeen, r.hash, Entry(SeenTtlMs(r.intent.deadline, t.at), t.at as int));
    PutPlain(s1.seen, cfg.maxSeen, r.hash, Entry(SeenTtlMs(r.intent.deadline, t.at), t.evalAt as int));
    DroppedEntries(s1.retry, r.hash);
  }

  predicate Remembered(s: State, r: Record, t: Turn) {
    && r.hash in s.seen.entries && r.hash !in s.retry.entries
    && s.seen.entries[r.hash].deadlineMs >= r.intent.deadline * 1000 && s.seen.entries[r.hash].deadlineMs >= t.at + 600_000
  }

  lemma FindPlain<V>(c: Cache<V>, h: Hash, now: int)
    ensures var (d, r) := Find(c, h, now);
      && (r.Some? <==> Alive(c, h, now)) && (r.Some? ==> r.value == c.entries[h].value)
      && (h in d.entries <==> Alive(c, h, now)) && (h in d.entries ==> d.entries[h] == c.entries[h])
  {
    hide Without;
  }

  lemma PutPlain<V>(c: Cache<V>, maxSize: nat, h: Hash, e: Entry<V>)
    ensures h in Put(c, maxSize, h, e).entries && Put(c, maxSize, h, e).entries[h] == e
  {
    hide Drop, MakeRoom;
  }

  lemma LastTryLooked(s: State, s1: State, h: Hash, t: Turn)
    requires t.at <= t.after && s1.retry == Find(s.retry, h, t.at).0
    ensures LastTry(s1, h, t) <==> LastTry(s, h, t)
  {
    hide Find;
    FindPlain(s.retry, h, t.at);
  }

  lemma AttemptRetires(cfg: Config, s: State, r: Record, t: Turn)
    requires t.evalAt <= t.after && r.hash !in s.seen.entries
    ensures var v := Attempt(cfg, s, r, t);
      && (r.hash in v.seen.entries <==>
            t.outcome.Filled? || t.outcome.LockedByOther? || (!t.outcome.FatalFailure? && LastTry(s, r.hash, t)))
      && (r.hash in v.seen.entries ==> Remembered(v, r, t))
  {
    hide Find, Put, Drop, Reserve, Hold, Release, Pow2;
    var h, ttl := r.hash, SeenTtlMs(r.intent.deadline, t.at);
    FindPlain(s.retry, h, t.evalAt);
    var retry := Find(s.retry, h, t.evalAt).0;
    FindPlain(retry, h, t.after);
    PutPlain(s.seen, cfg.maxSeen, h, Entry(ttl, t.after as int));
    DroppedEntries(retry, h);
    DroppedEntries(Find(retry, h, t.after).0, h);
  }

  /** A tick begins by forgetting exactly what has expired, and the commitments held for the balance to refresh. */
  lemma {:induction false} BeginForgets(s: State, start: nat, h: Hash)
    requires Wf(s.seen) && Wf(s.retry) && !s.halted
    ensures var t := Begin(s, start);
      && (h in t.seen.entries <==> Alive(s.seen, h, start)) && (h in t.retry.entries <==> Alive(s.retry, h, start))
      && t.inFlight.held == map[] && t.inFlight.reserved == s.inFlight.reserved && t.implausible == s.implausible
  {
    hide Sweep, Wf;
    SweepEffect(s.seen, start);
    SweepEffect(s.retry, start);
  }

  // --- Retries -------------------------------------------------------------------------

  /** How long the `n`-th failure waits, in milliseconds. */
  function Wait(n: nat): nat
    requires n > 0
  {
    if n == 1 then 1000 else 2 * Wait(n - 1)
  }

  lemma {:induction false} WaitIsPower(n: nat)
    requires n > 0
    ensures Wait(n) == 1000 * Pow2(n - 1)
  {
    if n > 1 { WaitIsPower(n - 1); }
  }

  /** Up to the third failure the hash stays, with its count and a doubled wait; the fourth retires it. */
  lemma RetriesExactly(cfg: Config, s: State, h: Hash, ttl: int, now: nat)
    ensures var n := (if Alive(s.retry, h, now) then s.retry.entries[h].value.attempts else 0) + 1; var t := ScheduleRetry(cfg, s, h, ttl, now);
      && (n <= 3 ==> t.seen == s.seen && h in t.retry.entries && t.retry.entries[h] == Entry(ttl, RetryState(n, now + Wait(n))))
      && (n > 3 ==> h in t.seen.entries && t.seen.entries[h] == Entry(ttl, now) && h !in t.retry.entries)
  {
    hide Without, Pow2, Wait;
    var n := (if Alive(s.retry, h, now) then s.retry.entries[h].value.attempts else 0) + 1;
    WaitIsPower(n);
  }

  /** A hash that has failed `n` times and waits. */
  ghost predicate Failing(cfg: Config, s: State, h: Hash, n: nat, retryAt: nat, until: int) {
    && !s.halted && Wf(s.seen) && Wf(s.retry) && s.inFlight.reserved == map[] && h !in s.seen.entries
    && (if n == 0 then h !in s.retry.entries
        else h in s.retry.entries && s.retry.entries[h].value == RetryState(n, retryAt) && s.retry.entries[h].deadlineMs >= until)
  }

  /** One more failure, once the wait is over. */
  lemma {:induction false} FailsAgain(cfg: Config, w: World, s: State, h: Hash, market: Quote.Market, n: nat, retryAt: nat, now: nat)
    requires n < 4 && Failing(cfg, s, h, n, retryAt, now) && (n > 0 ==> retryAt <= now) && Fillable(cfg, w(h), market, now)
    ensures var t := RunTick(cfg, w, s, OneRecord(h, w(h), now, true, market, DefiniteFailure));
      && t.calls == s.calls + [h]
      && (n < 3 ==> Failing(cfg, t, h, n + 1, now + Wait(n + 1), now + 600_000))
      && (n == 3 ==> h in t.seen.entries && t.seen.entries[h].deadlineMs >= w(h).deadline * 1000)
  {
    hide Wf, Find, Put, Drop, Begin, RunTick, VisitAll, Wait, Pow2, Attempt, ScheduleRetry, Quote.Evaluate;
    OneRecordTick(cfg, w, s, OneRecord(h, w(h), now, true, market, DefiniteFailure));
    BeginReady(s, now, h);
    if n > 0 { BeginKeeps(s, now, h); }
    var b := Begin(s, now);
    NotFound(b.seen, h, now);
    FindEffect(b.retry, h, now);
    var b1 := b.(retry := Find(b.retry, h, now).0);
    FindEffect(b1.retry, h, now);
    AttemptFails(cfg, w, b1, h, market, now);
    var failed := b1.(implausible := 0, retry := Find(b1.retry, h, now).0, calls := b1.calls + [h]);
    RetriesExactly(cfg, failed, h, SeenTtlMs(w(h).deadline, now), now);
    RetryKeepsWf(cfg, failed, h, SeenTtlMs(w(h).deadline, now), now);
  }

  lemma AttemptFails(cfg: Config, w: World, s: State, h: Hash, market: Quote.Market, now: nat)
    requires s.inFlight == NOTHING
    ensures Attempt(cfg, s, Record(h, w(h)), TurnAt(now, true, market, DefiniteFailure)) ==
      ScheduleRetry(cfg, s.(implausible := 0, retry := Find(s.retry, h, now).0, calls := s.calls + [h]), h, SeenTtlMs(w(h).deadline, now), now)
  {
    hide Find, ScheduleRetry, Reserve, Release;
    ReserveThenRelease(s.inFlight, w(h).destAsset, w(h).minDestAmount);
  }

  lemma RetryKeepsWf(cfg: Config, s: State, h: Hash, ttl: int, now: nat)
    requires Wf(s.seen) && Wf(s.retry)
    ensures var t := ScheduleRetry(cfg, s, h, ttl, now);
      && Wf(t.seen) && Wf(t.retry) && t.calls == s.calls && t.halted == s.halted && t.inFlight == s.inFlight
  {
    hide Wf, Find, Rebook;
    FindEffect(s.retry, h, now);
    var (retry, found) := Find(s.retry, h, now);
    RebookKeepsWf(cfg, s.(retry := retry), h, ttl, now, AttemptsOf(found) + 1);
  }

  lemma RebookKeepsWf(cfg: Config, s: State, h: Hash, ttl: int, now: nat, n: nat)
    requires Wf(s.seen) && Wf(s.retry)
    ensures var t := Rebook(cfg, s, h, ttl, now, n);
      && Wf(t.seen) && Wf(t.retry) && t.calls == s.calls && t.halted == s.halted && t.inFlight == s.inFlight
  {
    hide Wf, Put, Drop, Pow2;
    if n > MAX_FILL_RETRIES {
      PutEffect(s.seen, cfg.maxSeen, h, Entry(ttl, now as int));
      DropOnly(s.retry, h);
    } else {
      PutEffect(s.retry, cfg.maxRetry, h, Entry(ttl, RetryState(n, now + 1000 * Pow2(if n == 0 then 0 else n - 1))));
    }
  }

  lemma BeginKeeps(s: State, start: nat, h: Hash)
    requires Wf(s.retry) && h in s.retry.entries && s.retry.entries[h].deadlineMs >= start
    ensures h in Begin(s, start).retry.entries && Begin(s, start).retry.entries[h] == s.retry.entries[h]
  {
    hide Sweep, Wf;
    SweepEffect(s.retry, start);
  }

  /** Ticks at the earliest times the waits allow. */
  function FourFailures(h: Hash, i: Quote.Intent, market: Quote.Market, from: nat, n: nat): (ticks: seq<Tick>)
    requires n <= 4
    ensures |ticks| == n
  {
    if n == 0 then [] else FourFailures(h, i, market, from, n - 1) + [OneRecord(h, i, from + Waited(n - 1), true, market, DefiniteFailure)]
  }

  /** All the waits up to the `n`-th failure. */
  function Waited(n: nat): nat {
    if n == 0 then 0 else Waited(n - 1) + Wait(n)
  }

  lemma {:induction false} WaitedInTime(n: nat)
    requires n <= 3
    ensures Waited(n) <= 7000
  {
    assert Wait(1) == 1000 && Wait(2) == 2000 && Wait(3) == 4000;
    assert Waited(0) == 0 && Waited(1) == 1000 && Waited(2) == 3000 && Waited(3) == 7000;
  }

  lemma {:induction false} WaitedGrows(n: nat)
    requires n <= 3
    ensures n > 0 ==> Waited(n - 1) <= Waited(n)
  {
  }

  lemma {:induction false} RunOneMore(cfg: Config, w: World, ticks: seq<Tick>, a: Tick)
    requires WellShaped(ticks) && |a.records| == |a.turns|
    ensures WellShaped(ticks + [a]) && Run(cfg, w, ticks + [a]) == RunTick(cfg, w, Run(cfg, w, ticks), a)
  {
    hide RunTick;
    assert (ticks + [a])[..|ticks|] == ticks;
  }

  lemma {:induction false} MonotoneOneMore(ticks: seq<Tick>, a: Tick)
    requires Monotone(ticks) && TicksOn(a, EndTime(ticks))
    ensures Monotone(ticks + [a]) && EndTime(ticks + [a]) == TurnTime(a, |a.turns|)
  {
    hide TicksOn, TurnTime;
    assert (ticks + [a])[..|ticks|] == ticks;
  }

  /**
   * The budget is not only a bound: an intent that stays fillable and keeps failing is tried
   * once, then after one, two and four seconds, and only then retired.
   */
  lemma {:induction false} BudgetIsUsed(cfg: Config, w: World, h: Hash, market: Quote.Market, from: nat, n: nat)
    requires cfg.maxSeen >= 1 && cfg.maxRetry >= 1 && n <= 4 && Fillable(cfg, w(h), market, from + 7000)
    ensures var ticks := FourFailures(h, w(h), market, from, n);
      && WellShaped(ticks) && Monotone(ticks) && EndTime(ticks) <= from + Waited(n)
      && Count(Run(cfg, w, ticks).calls, h) == n
      && (n < 4 ==> Failing(cfg, Run(cfg, w, ticks), h, n, from + Waited(n), from + 600_000))
      && (n == 4 ==> h in Run(cfg, w, ticks).seen.entries)
  {
    hide RunTick, Run, Monotone, EndTime, Fillable, TicksOn, TurnTime, Count, Waited, Wait, Failing;
    if n == 0 {
      StartFails(cfg, w, h, from);
    } else {
      var before, now := FourFailures(h, w(h), market, from, n - 1), from + Waited(n - 1);
      var a := OneRecord(h, w(h), now, true, market, DefiniteFailure);
      BudgetIsUsed(cfg, w, h, market, from, n - 1);
      WaitedInTime(n - 1);
      WaitedIs(n);
      FillableEarlier(cfg, w(h), market, now, from + 7000);
      OneReading(a, h, w(h), now, true, market, DefiniteFailure, EndTime(before));
      RunOneMore(cfg, w, before, a);
      MonotoneOneMore(before, a);
      FailingLater(cfg, Run(cfg, w, before), h, n - 1, now, from + 600_000, now);
      FailsAgain(cfg, w, Run(cfg, w, before), h, market, n - 1, now, now);
      CountSnoc(Run(cfg, w, before).calls, h, h);
      if n < 4 { FailingLater(cfg, Run(cfg, w, before + [a]), h, n, now + Wait(n), now + 600_000, from + 600_000); }
    }
  }

  lemma WaitedIs(n: nat)
    requires n > 0
    ensures Waited(n) == Waited(n - 1) + Wait(n)
  {
  }

  lemma FailingLater(cfg: Config, s: State, h: Hash, n: nat, retryAt: nat, until: int, earlier: int)
    requires Failing(cfg, s, h, n, retryAt, until) && earlier <= until
    ensures Failing(cfg, s, h, n, retryAt, earlier)
  {
    hide Wf;
  }

  lemma StartFails(cfg: Config, w: World, h: Hash, from: nat)
    ensures Run(cfg, w, []) == START && Monotone([]) && EndTime([]) == 0 && Waited(0) == 0
    ensures Failing(cfg, START, h, 0, from, from + 600_000) && Count(START.calls, h) == 0
  {
    hide RunTick;
  }

  // --- The breaker ------------------------------------------------------------------------

  /** A turn that finds the price of an own, verified intent implausible. */
  predicate Implausible(cfg: Config, w: World, s: State, r: Record, tickNow: nat, t: Turn) {
    && LooksAt(s, r, tickNow, t) && r.intent == w(r.hash) && t.valid
    && Decide(cfg, s, r, t).Skip? && Decide(cfg, s, r, t).code.ImplausibleProfit?
  }

  /** Such a turn counts, and at the limit halts; a call starts the count again; nothing else touches either. */
  lemma BreakerExactly(cfg: Config, w: World, s: State, r: Record, tickNow: nat, t: Turn)
    ensures var v := Visit(cfg, w, s, r, tickNow, t);
      if Implausible(cfg, w, s, r, tickNow, t)
      then v.implausible == s.implausible + 1 && (v.halted <==> s.implausible + 1 >= cfg.quote.maxImplausibleTriggers)
      else if v.calls != s.calls then v.implausible == 0 && (v.halted <==> t.outcome.FatalFailure?)
      else v.implausible == s.implausible && v.halted == s.halted
  {
    hide Drop, Put, Quote.Evaluate, Reserve, Hold, Release, Without, Pow2;
  }

  /** `n` implausible turns in a row from here on, across whatever is only skipped. */
  ghost predicate ImplausibleTurns(cfg: Config, w: World, s: State, tick: Tick, n: nat)
    requires n <= |tick.records| == |tick.turns|
  {
    forall i :: 0 <= i < n ==>
      var here := VisitAll(cfg, w, s, tick, i);
      here.halted || Implausible(cfg, w, here, tick.records[i], tick.now, tick.turns[i])
  }

  /** As many implausible turns in a row as the limit halt the solver. */
  lemma {:induction false} ImplausibleTurnsHalt(cfg: Config, w: World, s: State, tick: Tick, n: nat)
    requires n <= |tick.records| == |tick.turns| && ImplausibleTurns(cfg, w, s, tick, n)
    ensures var t := VisitAll(cfg, w, s, tick, n);
      && (t.halted || t.implausible == s.implausible + n)
      && (n > 0 && s.implausible + n >= cfg.quote.maxImplausibleTriggers ==> t.halted)
      && t.calls == s.calls
  {
    hide Visit, Implausible;
    if n > 0 {
      assert ImplausibleTurns(cfg, w, s, tick, n - 1);
      ImplausibleTurnsHalt(cfg, w, s, tick, n - 1);
      var here := VisitAll(cfg, w, s, tick, n - 1);
      BreakerExactly(cfg, w, here, tick.records[n - 1], tick.now, tick.turns[n - 1]);
      HaltedVisit(cfg, w, here, tick.records[n - 1], tick.now, tick.turns[n - 1]);
      CallsIff(cfg, w, here, tick.records[n - 1], tick.now, tick.turns[n - 1]);
      NotOffered(cfg, w, here, tick.records[n - 1], tick.now, tick.turns[n - 1]);
    }
  }

  lemma NotOffered(cfg: Config, w: World, s: State, r: Record, tickNow: nat, t: Turn)
    ensures Implausible(cfg, w, s, r, tickNow, t) ==> !Decide(cfg, s, r, t).Fill?
  {
    hide Decide;
  }

  lemma HaltedVisit(cfg: Config, w: World, s: State, r: Record, tickNow: nat, t: Turn)
    ensures s.halted ==> Visit(cfg, w, s, r, tickNow, t) == s
  {
  }

  lemma {:induction false} HaltedTick(cfg: Config, w: World, s: State, tick: Tick, n: nat)
    requires s.halted && n <= |tick.records| == |tick.turns|
    ensures VisitAll(cfg, w, s, tick, n) == s
  {
    hide Visit;
    if n > 0 {
      HaltedTick(cfg, w, s, tick, n - 1);
      HaltedVisit(cfg, w, s, tick.records[n - 1], tick.now, tick.turns[n - 1]);
    }
  }

  /** A halted solver does nothing any more, whatever it is served. */
  lemma {:induction false} HaltedForever(cfg: Config, w: World, ticks: seq<Tick>, n: nat)
    requires WellShaped(ticks) && n <= |ticks| && Run(cfg, w, ticks[..n]).halted
    ensures Run(cfg, w, ticks) == Run(cfg, w, ticks[..n])
  {
    hide VisitAll, Sweep;
    if n == |ticks| {
      assert ticks[..n] == ticks;
    } else {
      var m := |ticks| - 1;
      assert ticks[..m][..n] == ticks[..n];
      HaltedForever(cfg, w, ticks[..m], n);
      HaltedTick(cfg, w, Run(cfg, w, ticks[..m]), ticks[m], |ticks[m].records|);
    }
  }
}
