/**
 * What the solver's per-hash promises mean for an intent. Its caches are keyed by the hash
 * as served, and the hash check ignores case, so one intent may be served under several
 * spellings; and a turn whose signature does not verify forgets the retries so far.
 */
module Spellings {
  import opened Prelude
  import opened OrderedSet
  import opened Lru
  import opened Commitments
  import opened Solving
  import Quote

  // --- Wins of an intent ---------------------------------------------------------------

  /** Successful fills of one intent, under whatever spelling. */
  function IntentWins(w: World, wins: seq<Hash>, i: Quote.Intent): nat {
    if wins == [] then 0
    else IntentWins(w, wins[..|wins| - 1], i) + if w(wins[|wins| - 1]) == i then 1 else 0
  }

  lemma {:induction false} IntentWinsSnoc(w: World, wins: seq<Hash>, h: Hash, i: Quote.Intent)
    ensures IntentWins(w, wins + [h], i) == IntentWins(w, wins, i) + if w(h) == i then 1 else 0
  {
    assert (wins + [h])[..|wins|] == wins;
  }

  lemma {:induction false} WonUnderOne(w: World, wins: seq<Hash>, i: Quote.Intent, g: Hash)
    requires forall h <- wins :: w(h) == i ==> h == g
    ensures IntentWins(w, wins, i) <= Count(wins, g)
  {
    if wins != [] {
      assert wins[|wins| - 1] in wins;
      WonUnderOne(w, wins[..|wins| - 1], i, g);
    }
  }

  /** The intent has one spelling among the hashes served. */
  ghost predicate OneSpelling(w: World, universe: set<Hash>, i: Quote.Intent) {
    forall g, h :: g in universe && h in universe && w(g) == i && w(h) == i ==> g == h
  }

  lemma VisitWins(cfg: Config, w: World, s: State, r: Record, tickNow: nat, t: Turn)
    ensures Visit(cfg, w, s, r, tickNow, t).wins == s.wins || Visit(cfg, w, s, r, tickNow, t).wins == s.wins + [r.hash]
  {
    hide Find, Drop, Put, Decide, Sweep;
  }

  lemma {:induction false} TurnsWin(cfg: Config, w: World, universe: set<Hash>, s: State, tick: Tick, n: nat)
    requires n <= |tick.records| == |tick.turns| && (forall r <- tick.records :: r.hash in universe)
    requires forall h <- s.wins :: h in universe
    ensures forall h <- VisitAll(cfg, w, s, tick, n).wins :: h in universe
  {
    hide Visit;
    if n > 0 {
      TurnsWin(cfg, w, universe, s, tick, n - 1);
      assert tick.records[n - 1] in tick.records;
      VisitWins(cfg, w, VisitAll(cfg, w, s, tick, n - 1), tick.records[n - 1], tick.now, tick.turns[n - 1]);
    }
  }

  lemma {:induction false} WinsAreServed(cfg: Config, w: World, universe: set<Hash>, ticks: seq<Tick>)
    requires WellShaped(ticks) && Roomy(cfg, universe, ticks)
    ensures forall h <- Run(cfg, w, ticks).wins :: h in universe
  {
    if ticks != [] {
      var m := |ticks| - 1;
      assert ticks[m] in ticks;
      WinsAreServed(cfg, w, universe, ticks[..m]);
      TurnsWin(cfg, w, universe, Begin(Run(cfg, w, ticks[..m]), ticks[m].start), ticks[m], |ticks[m].records|);
      hide VisitAll, Sweep;
    }
  }

  lemma {:induction false} OneSpellingWinsOnce(cfg: Config, w: World, universe: set<Hash>, ticks: seq<Tick>, i: Quote.Intent)
    requires WellShaped(ticks) && Monotone(ticks) && Roomy(cfg, universe, ticks) && OneSpelling(w, universe, i)
    ensures IntentWins(w, Run(cfg, w, ticks).wins, i) <= 1
  {
    hide Run, Monotone, Roomy;
    var wins := Run(cfg, w, ticks).wins;
    WinsAreServed(cfg, w, universe, ticks);
    if g :| g in universe && w(g) == i {
      WonUnderOne(w, wins, i, g);
      WinsAtMostOnce(cfg, w, universe, ticks, g);
    } else {
      NeverWon(w, wins, i);
    }
  }

  lemma {:induction false} NeverWon(w: World, wins: seq<Hash>, i: Quote.Intent)
    requires forall h <- wins :: w(h) != i
    ensures IntentWins(w, wins, i) == 0
  {
    if wins != [] {
      assert wins[|wins| - 1] in wins;
      NeverWon(w, wins[..|wins| - 1], i);
    }
  }

  // --- Single turns ---------------------------------------------------------------------

  /** With nothing committed, this market and time make the intent a fill. */
  predicate Fillable(cfg: Config, i: Quote.Intent, market: Quote.Market, now: nat) {
    Quote.Evaluate(i, cfg.quote, market, now, 0).Fill?
  }

  /** An earlier clock never hurts a fill. */
  lemma FillableEarlier(cfg: Config, i: Quote.Intent, market: Quote.Market, now: nat, later: nat)
    requires now <= later && Fillable(cfg, i, market, later)
    ensures Fillable(cfg, i, market, now)
  {
  }

  function TurnAt(now: nat, valid: bool, market: Quote.Market, outcome: Outcome): Turn {
    Turn(now, now, now, valid, market, outcome)
  }

  /** A tick that lists one record, all at one clock reading. */
  function OneRecord(h: Hash, i: Quote.Intent, now: nat, valid: bool, market: Quote.Market, outcome: Outcome): Tick {
    Tick(now, now, [Record(h, i)], [TurnAt(now, valid, market, outcome)])
  }

  /** Between ticks: caches in order, nothing reserved, and no memory of `h` that is in the way. */
  ghost predicate Ready(s: State, h: Hash) {
    !s.halted && Wf(s.seen) && Wf(s.retry) && s.inFlight.reserved == map[] && h !in s.seen.entries && h !in s.retry.entries
  }

  lemma {:induction false} OneRecordTick(cfg: Config, w: World, s: State, tick: Tick)
    requires |tick.records| == |tick.turns| == 1
    ensures RunTick(cfg, w, s, tick) == Visit(cfg, w, Begin(s, tick.start), tick.records[0], tick.now, tick.turns[0])
  {
    hide Visit, Begin;
    assert VisitAll(cfg, w, Begin(s, tick.start), tick, 0) == Begin(s, tick.start);
  }

  lemma BeginReady(s: State, start: nat, h: Hash)
    requires !s.halted && Wf(s.seen) && Wf(s.retry) && s.inFlight.reserved == map[]
    ensures var t := Begin(s, start);
      && !t.halted && Wf(t.seen) && Wf(t.retry) && t.inFlight == NOTHING && t.calls == s.calls && t.wins == s.wins
      && t.seen.entries.Keys <= s.seen.entries.Keys && t.retry.entries.Keys <= s.retry.entries.Keys
      && (h in t.retry.entries ==> t.retry.entries[h] == s.retry.entries[h])
  {
    hide Wf, Sweep;
    SweepEffect(s.seen, start);
    SweepEffect(s.retry, start);
  }

  /** A filled turn is a call and a win, and leaves nothing in the way of any other hash. */
  lemma {:induction false} WinningTick(cfg: Config, w: World, s: State, h: Hash, market: Quote.Market, now: nat, g: Hash)
    requires Ready(s, h) && Fillable(cfg, w(h), market, now) && (g != h ==> Ready(s, g))
    ensures var t := RunTick(cfg, w, s, OneRecord(h, w(h), now, true, market, Filled));
      t.wins == s.wins + [h] && (g != h ==> Ready(t, g))
  {
    hide Wf, Find, Put, Drop, Begin, RunTick, VisitAll;
    var tick := OneRecord(h, w(h), now, true, market, Filled);
    OneRecordTick(cfg, w, s, tick);
    BeginReady(s, now, h);
    BeginReady(s, now, g);
    var b := Begin(s, now);
    NotFound(b.seen, h, now);
    NotFound(b.retry, h, now);
    PutEffect(b.seen, cfg.maxSeen, h, Entry(SeenTtlMs(w(h).deadline, now), now));
    DropOnly(b.seen, h);
    DropOnly(b.retry, h);
    ReserveThenRelease(b.inFlight, w(h).destAsset, w(h).minDestAmount);
    hide Reserve, Hold, Release, Quote.Evaluate;
  }

  lemma NotFound<V>(c: Cache<V>, h: Hash, now: int)
    requires h !in c.entries
    ensures Find(c, h, now) == (c, None)
  {
  }

  lemma DropOnly<V>(c: Cache<V>, h: Hash)
    requires Wf(c)
    ensures Wf(Drop(c, h)) && Drop(c, h).entries == c.entries - {h}
  {
    DropWf(c, h);
  }

  // --- One intent, two spellings -----------------------------------------------------------

  lemma {:induction false} TwoSpellingsWinTwice(cfg: Config, w: World, universe: set<Hash>, g: Hash, h: Hash, market: Quote.Market, now: nat,
                                                ticks: seq<Tick>)
    requires g != h && w(g) == w(h) && g in universe && h in universe && Fillable(cfg, w(h), market, now)
    requires |universe| <= cfg.maxSeen && |universe| <= cfg.maxRetry
    requires ticks == [OneRecord(g, w(g), now, true, market, Filled), OneRecord(h, w(h), now, true, market, Filled)]
    ensures WellShaped(ticks) && Monotone(ticks) && Roomy(cfg, universe, ticks)
    ensures IntentWins(w, Run(cfg, w, ticks).wins, w(h)) == 2
  {
    hide RunTick, Fillable, Quote.Evaluate;
    assert ticks == [] + [ticks[0], ticks[1]];
    MonotoneTwoMore([], ticks[0], ticks[1]);
    hide Monotone;
    assert ticks[..1] == [ticks[0]] && [ticks[0]][..0] == [];
    assert Run(cfg, w, []) == START;
    assert Run(cfg, w, ticks[..1]) == RunTick(cfg, w, START, ticks[0]);
    WinningTick(cfg, w, START, g, market, now, h);
    WinningTick(cfg, w, Run(cfg, w, ticks[..1]), h, market, now, h);
    var wins := Run(cfg, w, ticks).wins;
    assert wins == [] + [g] + [h];
    hide Run;
    IntentWinsSnoc(w, [], g, w(h));
    IntentWinsSnoc(w, [] + [g], h, w(h));
    assert IntentWins(w, [], w(h)) == 0;
  }

  /** Every run over these hashes wins an intent that can be filled at most once, if and only if it has one spelling among them. */
  lemma {:induction false} WonOnceIffOneSpelling(cfg: Config, w: World, universe: set<Hash>, i: Quote.Intent, market: Quote.Market, now: nat)
    requires |universe| <= cfg.maxSeen && |universe| <= cfg.maxRetry && Fillable(cfg, i, market, now)
    ensures (forall ticks: seq<Tick> :: WellShaped(ticks) && Monotone(ticks) && Roomy(cfg, universe, ticks) ==>
              IntentWins(w, Run(cfg, w, ticks).wins, i) <= 1) <==> OneSpelling(w, universe, i)
  {
    hide Run, Monotone, Roomy, WellShaped, IntentWins, Fillable;
    if OneSpelling(w, universe, i) {
      forall ticks: seq<Tick> | WellShaped(ticks) && Monotone(ticks) && Roomy(cfg, universe, ticks)
        ensures IntentWins(w, Run(cfg, w, ticks).wins, i) <= 1
      {
        OneSpellingWinsOnce(cfg, w, universe, ticks, i);
      }
    } else {
      var g, h :| g in universe && h in universe && w(g) == i && w(h) == i && g != h;
      var ticks := [OneRecord(g, i, now, true, market, Filled), OneRecord(h, i, now, true, market, Filled)];
      TwoSpellingsWinTwice(cfg, w, universe, g, h, market, now, ticks);
    }
  }

  // --- Retries forgotten --------------------------------------------------------------------

  const BACKOFF_MS := 1000

  /** A first failure: one call, and one second to wait. */
  lemma {:induction false} FailingTick(cfg: Config, w: World, s: State, h: Hash, market: Quote.Market, now: nat)
    requires Ready(s, h) && Fillable(cfg, w(h), market, now)
    ensures var t := RunTick(cfg, w, s, OneRecord(h, w(h), now, true, market, DefiniteFailure));
      && t.calls == s.calls + [h] && !t.halted && Wf(t.seen) && Wf(t.retry) && t.inFlight.reserved == map[]
      && h !in t.seen.entries && (h in t.retry.entries ==> t.retry.entries[h].value.nextRetryAt == now + BACKOFF_MS)
  {
    hide Wf, Find, Put, Drop, Begin, RunTick, VisitAll;
    OneRecordTick(cfg, w, s, OneRecord(h, w(h), now, true, market, DefiniteFailure));
    BeginReady(s, now, h);
    var b := Begin(s, now);
    NotFound(b.seen, h, now);
    NotFound(b.retry, h, now);
    PutEffect(b.retry, cfg.maxRetry, h, Entry(SeenTtlMs(w(h).deadline, now), RetryState(1, now + BACKOFF_MS)));
    FailedAttempt(cfg, w, b, h, market, now);
    hide Reserve, Hold, Release, Quote.Evaluate, Attempt;
  }

  lemma FailedAttempt(cfg: Config, w: World, b: State, h: Hash, market: Quote.Market, now: nat)
    requires h !in b.retry.entries && b.inFlight == NOTHING
    ensures var r, t := Record(h, w(h)), TurnAt(now, true, market, DefiniteFailure);
      Attempt(cfg, b, r, t) == b.(implausible := 0, calls := b.calls + [h],
        retry := Put(b.retry, cfg.maxRetry, h, Entry(SeenTtlMs(w(h).deadline, now), RetryState(1, now + BACKOFF_MS))))
  {
    hide Put, Find, Drop, Reserve, Release;
    NotFound(b.retry, h, now);
    ReserveThenRelease(b.inFlight, w(h).destAsset, w(h).minDestAmount);
  }

  /** A turn whose signature does not verify, once the wait is over, leaves no trace of the failures before it. */
  lemma {:induction false} InvalidTick(cfg: Config, w: World, s: State, h: Hash, market: Quote.Market, now: nat)
    requires !s.halted && Wf(s.seen) && Wf(s.retry) && s.inFlight.reserved == map[] && h !in s.seen.entries
    requires h in s.retry.entries ==> s.retry.entries[h].value.nextRetryAt <= now
    ensures var t := RunTick(cfg, w, s, OneRecord(h, w(h), now, false, market, DefiniteFailure)); Ready(t, h) && t.calls == s.calls
  {
    hide Wf, Find, Drop, Begin, RunTick, VisitAll;
    OneRecordTick(cfg, w, s, OneRecord(h, w(h), now, false, market, DefiniteFailure));
    BeginReady(s, now, h);
    var b := Begin(s, now);
    NotFound(b.seen, h, now);
    FindEffect(b.retry, h, now);
    DropOnly(Find(b.retry, h, now).0, h);
  }

  /** `n` failures, each followed a second later by a turn that does not verify. */
  function FailAndForget(h: Hash, i: Quote.Intent, market: Quote.Market, from: nat, n: nat): (ticks: seq<Tick>)
    ensures |ticks| == 2 * n
  {
    if n == 0 then []
    else
      var now := from + BACKOFF_MS * (n - 1);
      FailAndForget(h, i, market, from, n - 1)
      + [OneRecord(h, i, now, true, market, DefiniteFailure), OneRecord(h, i, now + BACKOFF_MS, false, market, DefiniteFailure)]
  }

  lemma {:induction false} RunTwoMore(cfg: Config, w: World, ticks: seq<Tick>, a: Tick, b: Tick)
    requires WellShaped(ticks) && |a.records| == |a.turns| && |b.records| == |b.turns|
    ensures WellShaped(ticks + [a, b]) && Run(cfg, w, ticks + [a, b]) == RunTick(cfg, w, RunTick(cfg, w, Run(cfg, w, ticks), a), b)
  {
    hide RunTick;
    var all, one := ticks + [a, b], ticks + [a];
    assert all[..|all| - 1] == one && one[..|one| - 1] == ticks;
    assert WellShaped(one) && WellShaped(all);
  }

  lemma {:induction false} MonotoneTwoMore(ticks: seq<Tick>, a: Tick, b: Tick)
    requires Monotone(ticks) && TicksOn(a, EndTime(ticks)) && TicksOn(b, TurnTime(a, |a.turns|))
    ensures Monotone(ticks + [a, b]) && EndTime(ticks + [a, b]) == TurnTime(b, |b.turns|)
  {
    hide TicksOn, TurnTime;
    var all, one := ticks + [a, b], ticks + [a];
    assert all[..|all| - 1] == one && one[..|one| - 1] == ticks;
    assert EndTime(one) == TurnTime(a, |a.turns|);
    assert Monotone(one);
  }

  lemma {:induction false} OwnIntentThroughout(cfg: Config, w: World, h: Hash, market: Quote.Market, from: nat, n: nat)
    requires cfg.maxSeen >= 1 && cfg.maxRetry >= 1
    ensures var ticks := FailAndForget(h, w(h), market, from, n);
      WellShaped(ticks) && Roomy(cfg, {h}, ticks) && forall t <- ticks :: t.records == [Record(h, w(h))]
  {
    if n > 0 { OwnIntentThroughout(cfg, w, h, market, from, n - 1); }
  }

  lemma NoTicks(cfg: Config, w: World, h: Hash)
    ensures Run(cfg, w, []) == START && Monotone([]) && EndTime([]) == 0 && Ready(START, h) && Count(START.calls, h) == 0
  {
    hide RunTick;
  }

  lemma OneReading(tick: Tick, h: Hash, i: Quote.Intent, now: nat, valid: bool, market: Quote.Market, outcome: Outcome, last: nat)
    requires tick == OneRecord(h, i, now, valid, market, outcome) && last <= now
    ensures TicksOn(tick, last) && TurnTime(tick, |tick.turns|) == now
  {
  }

  /**
   * The budget of four calls needs every turn to verify: a hash served with its own intent
   * throughout, but with a bad signature in between, is called once a second for as long as
   * the intent can be filled.
   */
  lemma {:induction false} InvalidTurnsResetRetries(cfg: Config, w: World, h: Hash, market: Quote.Market, from: nat, n: nat)
    requires cfg.maxSeen >= 1 && cfg.maxRetry >= 1 && Fillable(cfg, w(h), market, from + BACKOFF_MS * n)
    ensures var ticks := FailAndForget(h, w(h), market, from, n);
      && WellShaped(ticks) && Monotone(ticks) && Roomy(cfg, {h}, ticks)
      && (forall t <- ticks :: t.records == [Record(h, w(h))])
      && EndTime(ticks) <= from + BACKOFF_MS * n
      && Ready(Run(cfg, w, ticks), h) && Count(Run(cfg, w, ticks).calls, h) == n
  {
    hide RunTick, Run, Monotone, EndTime, Fillable, Ready, TicksOn, TurnTime, Roomy, Count;
    OwnIntentThroughout(cfg, w, h, market, from, n);
    if n == 0 {
      NoTicks(cfg, w, h);
    } else {
      var now := from + BACKOFF_MS * (n - 1);
      var before := FailAndForget(h, w(h), market, from, n - 1);
      var a := OneRecord(h, w(h), now, true, market, DefiniteFailure);
      var b := OneRecord(h, w(h), now + BACKOFF_MS, false, market, DefiniteFailure);
      FillableEarlier(cfg, w(h), market, now, from + BACKOFF_MS * n);
      InvalidTurnsResetRetries(cfg, w, h, market, from, n - 1);
      OneReading(a, h, w(h), now, true, market, DefiniteFailure, EndTime(before));
      OneReading(b, h, w(h), now + BACKOFF_MS, false, market, DefiniteFailure, now);
      RunTwoMore(cfg, w, before, a, b);
      MonotoneTwoMore(before, a, b);
      FailingTick(cfg, w, Run(cfg, w, before), h, market, now);
      InvalidTick(cfg, w, RunTick(cfg, w, Run(cfg, w, before), a), h, market, now + BACKOFF_MS);
      CountSnoc(Run(cfg, w, before).calls, h, h);
    }
  }
}
