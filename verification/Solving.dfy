/**
 * The solver's loop (solver.ts) over whole runs: what it has seen, what it retries, and
 * what it has committed. It wins a served hash at most once, tries it at most four times
 * while its signature verifies, and never commits more than it holds.
 */
module Solving {
  import opened Prelude
  import opened OrderedSet
  import opened Lru
  import opened Commitments
  import Quote

  const MAX_FILL_RETRIES := 3
  const MIN_SEEN_TTL_MS := 600_000

  datatype RetryState = RetryState(attempts: nat, nextRetryAt: int)

  /** A mempool record, under the hash it is served with. */
  datatype Record = Record(hash: Hash, intent: Quote.Intent)

  datatype Config = Config(quote: Quote.Config, maxSeen: nat, maxRetry: nat)

  /** How `executor.fill` ends. */
  datatype Outcome = Filled | LockedByOther | DefiniteFailure | IndefiniteFailure | FatalFailure

  /** One record's turn: the clock readings it makes, and what the world answers. */
  datatype Turn = Turn(at: nat, evalAt: nat, after: nat, valid: bool, market: Quote.Market, outcome: Outcome)

  datatype Tick = Tick(start: nat, now: nat, records: seq<Record>, turns: seq<Turn>)

  datatype State = State(
    seen: Cache<int>,
    retry: Cache<RetryState>,
    inFlight: Ledger,
    implausible: nat,
    halted: bool,
    calls: seq<Hash>,
    wins: seq<Hash>)

  const START := State(Empty(), Empty(), NOTHING, 0, false, [], [])

  /** The intent an honest record under this hash carries; spellings of one hash carry the same. */
  type World = Hash -> Quote.Intent

  function SeenTtlMs(deadline: nat, now: nat): int {
    Max(deadline * 1000, now + MIN_SEEN_TTL_MS)
  }

  function Pow2(n: nat): nat {
    if n == 0 then 1 else 2 * Pow2(n - 1)
  }

  /** Terminal for this hash: remembered as seen, no more retries. */
  function Retire(cfg: Config, s: State, h: Hash, ttl: int, now: int): State {
    s.(seen := Put(s.seen, cfg.maxSeen, h, Entry(ttl, now)), retry := Drop(s.retry, h))
  }

  /** The `attempts`-th failure: back off, or retire once the retries are spent. */
  function Rebook(cfg: Config, s: State, h: Hash, ttl: int, now: nat, attempts: nat): State {
    if attempts > MAX_FILL_RETRIES then Retire(cfg, s, h, ttl, now)
    else
      var backoff := 1000 * Pow2(if attempts == 0 then 0 else attempts - 1);
      s.(retry := Put(s.retry, cfg.maxRetry, h, Entry(ttl, RetryState(attempts, now + backoff))))
  }

  function AttemptsOf(found: Option<RetryState>): nat {
    if found.Some? then found.value.attempts else 0
  }

  function ScheduleRetry(cfg: Config, s: State, h: Hash, ttl: int, now: nat): State {
    var (retry, found) := Find(s.retry, h, now);
    Rebook(cfg, s.(retry := retry), h, ttl, now, AttemptsOf(found) + 1)
  }

  /** What becomes of the reservation. */
  function Settle(l: Ledger, a: Asset, amount: nat, outcome: Outcome): Ledger {
    if outcome.DefiniteFailure? then Release(l, a, amount) else Hold(l, a, amount)
  }

  /** Reserve, call the executor, and book the outcome. */
  function Attempt(cfg: Config, s: State, r: Record, t: Turn): State {
    var ttl := SeenTtlMs(r.intent.deadline, t.at);
    var (retry, _) := Find(s.retry, r.hash, t.evalAt);
    var s1 := s.(implausible := 0, retry := retry, calls := s.calls + [r.hash],
                 inFlight := Settle(Reserve(s.inFlight, r.intent.destAsset, r.intent.minDestAmount),
                                    r.intent.destAsset, r.intent.minDestAmount, t.outcome));
    match t.outcome
    case Filled => Retire(cfg, s1.(wins := s.wins + [r.hash]), r.hash, ttl, t.after)
    case LockedByOther => Retire(cfg, s1, r.hash, ttl, t.after)
    case FatalFailure => s1.(halted := true)
    case _ => ScheduleRetry(cfg, s1, r.hash, ttl, t.after)
  }

  function Decide(cfg: Config, s: State, r: Record, t: Turn): Quote.Decision {
    Quote.Evaluate(r.intent, cfg.quote, t.market, t.evalAt, s.inFlight.Committed(r.intent.destAsset))
  }

  /** `consider`. */
  function Consider(cfg: Config, w: World, s: State, r: Record, t: Turn): State {
    var ttl := SeenTtlMs(r.intent.deadline, t.at);
    if r.intent != w(r.hash) then Retire(cfg, s, r.hash, ttl, t.at)
    else if !t.valid then s.(retry := Drop(s.retry, r.hash))
    else
      match Decide(cfg, s, r, t)
      case Fill(_, _, _) => Attempt(cfg, s, r, t)
      case Skip(code, terminal) =>
        if code.ImplausibleProfit? then
          s.(implausible := s.implausible + 1, halted := s.implausible + 1 >= cfg.quote.maxImplausibleTriggers)
        else if terminal then Retire(cfg, s, r.hash, ttl, t.evalAt)
        else s
  }

  /** The loop body of `tick`: seen and backed-off records are passed over. */
  function Visit(cfg: Config, w: World, s: State, r: Record, tickNow: nat, t: Turn): State {
    if s.halted then s
    else
      var (seen, hit) := Find(s.seen, r.hash, t.at);
      if hit.Some? then s.(seen := seen)
      else
        var (retry, waiting) := Find(s.retry, r.hash, t.at);
        var s1 := s.(seen := seen, retry := retry);
        if waiting.Some? && tickNow < waiting.value.nextRetryAt then s1
        else Consider(cfg, w, s1, r, t)
  }

  function VisitAll(cfg: Config, w: World, s: State, tick: Tick, n: nat): State
    requires n <= |tick.records| && |tick.records| == |tick.turns|
  {
    if n == 0 then s else Visit(cfg, w, VisitAll(cfg, w, s, tick, n - 1), tick.records[n - 1], tick.now, tick.turns[n - 1])
  }

  function Begin(s: State, start: nat): State {
    if s.halted then s
    else s.(seen := Sweep(s.seen, start), retry := Sweep(s.retry, start), inFlight := FlushHeld(s.inFlight))
  }

  function RunTick(cfg: Config, w: World, s: State, tick: Tick): State
    requires |tick.records| == |tick.turns|
  {
    VisitAll(cfg, w, Begin(s, tick.start), tick, |tick.records|)
  }

  ghost predicate WellShaped(ticks: seq<Tick>) {
    forall t <- ticks :: |t.records| == |t.turns|
  }

  function Run(cfg: Config, w: World, ticks: seq<Tick>): State
    requires WellShaped(ticks)
  {
    if ticks == [] then START else RunTick(cfg, w, Run(cfg, w, ticks[..|ticks| - 1]), ticks[|ticks| - 1])
  }

  // --- The clock -------------------------------------------------------------------------

  function TurnTime(tick: Tick, n: nat): nat
    requires n <= |tick.turns|
  {
    if n == 0 then tick.now else tick.turns[n - 1].after
  }

  predicate TicksOn(tick: Tick, last: nat) {
    && last <= tick.start <= tick.now
    && forall i :: 0 <= i < |tick.turns| ==> TurnTime(tick, i) <= tick.turns[i].at <= tick.turns[i].evalAt <= tick.turns[i].after
  }

  function EndTime(ticks: seq<Tick>): nat {
    if ticks == [] then 0 else TurnTime(ticks[|ticks| - 1], |ticks[|ticks| - 1].turns|)
  }

  ghost predicate Monotone(ticks: seq<Tick>) {
    ticks == [] || (Monotone(ticks[..|ticks| - 1]) && TicksOn(ticks[|ticks| - 1], EndTime(ticks[..|ticks| - 1])))
  }

  /** Hashes come from a set both caches have room for. */
  ghost predicate Roomy(cfg: Config, universe: set<Hash>, ticks: seq<Tick>) {
    && |universe| <= cfg.maxSeen && |universe| <= cfg.maxRetry
    && forall t <- ticks :: forall r <- t.records :: r.hash in universe
  }

  // --- Once retired, retired until it is too late ------------------------------------------

  function Count(s: seq<Hash>, h: Hash): nat {
    if s == [] then 0 else Count(s[..|s| - 1], h) + if s[|s| - 1] == h then 1 else 0
  }

  lemma {:induction false} CountSnoc(s: seq<Hash>, x: Hash, h: Hash)
    ensures Count(s + [x], h) == Count(s, h) + if x == h then 1 else 0
  {
    assert (s + [x])[..|s|] == s;
  }

  ghost predicate CachesOk(universe: set<Hash>, s: State) {
    Wf(s.seen) && Wf(s.retry) && s.seen.entries.Keys <= universe && s.retry.entries.Keys <= universe
  }

  /** Remembered at least until its deadline, or past it. */
  predicate Done(w: World, s: State, now: nat, h: Hash) {
    || now > w(h).deadline * 1000
    || (h in s.seen.entries && s.seen.entries[h].deadlineMs >= w(h).deadline * 1000)
  }

  predicate WonOnce(w: World, s: State, now: nat, h: Hash) {
    Count(s.wins, h) <= 1 && (Count(s.wins, h) == 1 ==> Done(w, s, now, h))
  }

  /** The retry entry counts the calls so far. */
  predicate TriedFewTimes(w: World, s: State, now: nat, h: Hash) {
    var c := Count(s.calls, h);
    && c <= MAX_FILL_RETRIES + 1
    && (|| Done(w, s, now, h)
        || (c == 0 && h !in s.retry.entries)
        || (1 <= c <= MAX_FILL_RETRIES && h in s.retry.entries && s.retry.entries[h].value.attempts == c
            && s.retry.entries[h].deadlineMs >= w(h).deadline * 1000))
  }

  ghost predicate HashOk(w: World, s: State, now: nat, h: Hash, honest: bool) {
    WonOnce(w, s, now, h) && (honest && !s.halted ==> TriedFewTimes(w, s, now, h)) && (honest ==> Count(s.calls, h) <= MAX_FILL_RETRIES + 1)
  }

  /** An honest turn: the record is the hash's own, and its signature verifies. */
  predicate Honest(w: World, r: Record, t: Turn) {
    r.intent == w(r.hash) && t.valid
  }

  predicate SameEntries(s: State, t: State, g: Hash) {
    && (g in t.seen.entries <==> g in s.seen.entries) && (g in s.seen.entries ==> t.seen.entries[g] == s.seen.entries[g])
    && (g in t.retry.entries <==> g in s.retry.entries) && (g in s.retry.entries ==> t.retry.entries[g] == s.retry.entries[g])
  }

  ghost predicate OnlyEntries(s: State, t: State, h: Hash) {
    && t.calls == s.calls && t.wins == s.wins && t.halted == s.halted
    && forall g :: g != h ==> SameEntries(s, t, g)
  }

  ghost predicate Retired(s: State, t: State, h: Hash, ttl: int) {
    OnlyEntries(s, t, h) && h in t.seen.entries && t.seen.entries[h].deadlineMs == ttl
  }

  ghost predicate Waiting(s: State, t: State, h: Hash, ttl: int, attempts: nat) {
    && OnlyEntries(s, t, h) && t.seen == s.seen
    && h in t.retry.entries && t.retry.entries[h].deadlineMs == ttl && t.retry.entries[h].value.attempts == attempts
  }

  lemma Remembered(universe: set<Hash>, s: State, seen: Cache<int>, h: Hash, e: Entry<int>)
    requires CachesOk(universe, s) && Wf(seen) && seen.entries == s.seen.entries[h := e] && seen.entries.Keys <= universe
    ensures CachesOk(universe, s.(seen := seen)) && Retired(s, s.(seen := seen), h, e.deadlineMs)
  {
  }

  lemma Stored(universe: set<Hash>, s: State, retry: Cache<RetryState>, h: Hash, e: Entry<RetryState>)
    requires CachesOk(universe, s) && Wf(retry) && retry.entries == s.retry.entries[h := e] && retry.entries.Keys <= universe
    ensures CachesOk(universe, s.(retry := retry)) && Waiting(s, s.(retry := retry), h, e.deadlineMs, e.value.attempts)
  {
  }

  lemma Forgotten(universe: set<Hash>, s: State, retry: Cache<RetryState>, h: Hash)
    requires CachesOk(universe, s) && Wf(retry)
    requires retry.entries == s.retry.entries || retry.entries == s.retry.entries - {h}
    ensures var t := s.(retry := retry); CachesOk(universe, t) && OnlyEntries(s, t, h) && t.seen == s.seen
  {
  }

  lemma OnlyTwice(s: State, t: State, u: State, h: Hash)
    requires OnlyEntries(s, t, h) && OnlyEntries(t, u, h)
    ensures OnlyEntries(s, u, h)
  {
    forall g | g != h ensures SameEntries(s, u, g) {
      assert SameEntries(s, t, g) && SameEntries(t, u, g);
    }
  }

  lemma RetiredFrom(s: State, s1: State, t: State, h: Hash, ttl: int)
    requires OnlyEntries(s, s1, h) && Retired(s1, t, h, ttl)
    ensures Retired(s, t, h, ttl)
  {
    OnlyTwice(s, s1, t, h);
  }

  lemma WaitingFrom(s: State, s1: State, t: State, h: Hash, ttl: int, attempts: nat)
    requires OnlyEntries(s, s1, h) && s1.seen == s.seen && Waiting(s1, t, h, ttl, attempts)
    ensures Waiting(s, t, h, ttl, attempts)
  {
    OnlyTwice(s, s1, t, h);
  }

  lemma RetireEffect(cfg: Config, universe: set<Hash>, s: State, h: Hash, ttl: int, now: int)
    requires CachesOk(universe, s) && h in universe && |universe| <= cfg.maxSeen
    ensures var t := Retire(cfg, s, h, ttl, now); CachesOk(universe, t) && Retired(s, t, h, ttl)
  {
    hide Put, Drop, Wf;
    DropWf(s.retry, h);
    DroppedEntries(s.retry, h);
    Forgotten(universe, s, Drop(s.retry, h), h);
    var s1 := s.(retry := Drop(s.retry, h));
    PutWithRoom(s1.seen, cfg.maxSeen, h, Entry(ttl, now), universe);
    Remembered(universe, s1, Put(s1.seen, cfg.maxSeen, h, Entry(ttl, now)), h, Entry(ttl, now));
    RetiredFrom(s, s1, Retire(cfg, s, h, ttl, now), h, ttl);
  }

  lemma RebookRetires(cfg: Config, universe: set<Hash>, s: State, h: Hash, ttl: int, now: nat, attempts: nat)
    requires CachesOk(universe, s) && h in universe && |universe| <= cfg.maxSeen && attempts > MAX_FILL_RETRIES
    ensures var t := Rebook(cfg, s, h, ttl, now, attempts); CachesOk(universe, t) && Retired(s, t, h, ttl)
  {
    hide Retire, Put, Drop, Wf, Retired, CachesOk;
    RetireEffect(cfg, universe, s, h, ttl, now);
  }

  lemma RebookStores(cfg: Config, universe: set<Hash>, s: State, h: Hash, ttl: int, now: nat, attempts: nat)
    requires CachesOk(universe, s) && h in universe && |universe| <= cfg.maxRetry && 1 <= attempts <= MAX_FILL_RETRIES
    ensures var t := Rebook(cfg, s, h, ttl, now, attempts); CachesOk(universe, t) && Waiting(s, t, h, ttl, attempts)
  {
    hide Retire, Put, Drop, Wf, Waiting, Pow2;
    var e := Entry(ttl, RetryState(attempts, now + 1000 * Pow2(attempts - 1)));
    PutWithRoom(s.retry, cfg.maxRetry, h, e, universe);
    Stored(universe, s, Put(s.retry, cfg.maxRetry, h, e), h, e);
  }

  /** What a lookup of the retry cache makes of it: the same, or without an expired entry of this hash. */
  lemma LookedUp(universe: set<Hash>, s: State, h: Hash, now: nat)
    requires CachesOk(universe, s)
    ensures var (retry, found) := Find(s.retry, h, now); var t := s.(retry := retry);
      && CachesOk(universe, t) && OnlyEntries(s, t, h) && t.seen == s.seen
      && (found.Some? <==> h in s.retry.entries && now <= s.retry.entries[h].deadlineMs)
      && (found.Some? ==> found.value == s.retry.entries[h].value && t.retry.entries == s.retry.entries)
      && (found.None? ==> h !in t.retry.entries)
  {
    hide Find, Wf, OnlyEntries;
    FindEffect(s.retry, h, now);
    Forgotten(universe, s, Find(s.retry, h, now).0, h);
  }

  /** A turn leaves every other hash's entries and counts alone. */
  predicate Elsewhere(s: State, t: State, g: Hash) {
    && SameEntries(s, t, g)
    && Count(t.calls, g) == Count(s.calls, g) && Count(t.wins, g) == Count(s.wins, g)
    && (s.halted ==> t.halted)
  }

  lemma ElsewhereKeeps(w: World, s: State, t: State, last: nat, now: nat, g: Hash, honest: bool)
    requires HashOk(w, s, last, g, honest) && Elsewhere(s, t, g) && last <= now
    ensures HashOk(w, t, now, g, honest)
  {
  }

  /** The state right after the call, before its outcome is booked. */
  function Called(s: State, r: Record, t: Turn): State {
    s.(implausible := 0, retry := Find(s.retry, r.hash, t.evalAt).0, calls := s.calls + [r.hash],
       inFlight := Settle(Reserve(s.inFlight, r.intent.destAsset, r.intent.minDestAmount),
                          r.intent.destAsset, r.intent.minDestAmount, t.outcome))
  }

  /** Where the outcome leads. */
  function Booked(cfg: Config, s: State, r: Record, t: Turn): State {
    var ttl := SeenTtlMs(r.intent.deadline, t.at);
    match t.outcome
    case Filled => Retire(cfg, s.(wins := s.wins + [r.hash]), r.hash, ttl, t.after)
    case LockedByOther => Retire(cfg, s, r.hash, ttl, t.after)
    case FatalFailure => s.(halted := true)
    case _ => ScheduleRetry(cfg, s, r.hash, ttl, t.after)
  }

  /** Before the outcome is booked: not won, and the retry entry lags the calls by one. */
  predicate Underway(w: World, s: State, h: Hash, honest: bool) {
    var c := Count(s.calls, h);
    && Count(s.wins, h) == 0 && !s.halted
    && (honest ==>
          1 <= c <= MAX_FILL_RETRIES + 1
          && (if c == 1 then h !in s.retry.entries
              else h in s.retry.entries && s.retry.entries[h].value.attempts == c - 1
                   && s.retry.entries[h].deadlineMs >= w(h).deadline * 1000))
  }

  lemma RetiredIsOk(w: World, s: State, t: State, h: Hash, ttl: int, now: nat, honest: bool)
    requires Retired(s, t, h, ttl) && ttl >= w(h).deadline * 1000
    requires Count(s.wins, h) <= 1 && (honest ==> Count(s.calls, h) <= MAX_FILL_RETRIES + 1)
    ensures HashOk(w, t, now, h, honest) && OnlyEntries(s, t, h)
  {
  }

  lemma WaitingIsOk(w: World, s: State, t: State, h: Hash, ttl: int, attempts: nat, now: nat, honest: bool)
    requires Waiting(s, t, h, ttl, attempts) && ttl >= w(h).deadline * 1000
    requires Count(s.wins, h) == 0 && (honest ==> 1 <= Count(s.calls, h) <= MAX_FILL_RETRIES + 1)
    requires honest ==> now > w(h).deadline * 1000 || (attempts == Count(s.calls, h) <= MAX_FILL_RETRIES)
    ensures HashOk(w, t, now, h, honest) && OnlyEntries(s, t, h)
  {
  }

  lemma ScheduledIsOk(cfg: Config, w: World, universe: set<Hash>, s: State, h: Hash, ttl: int, now: nat, honest: bool)
    requires CachesOk(universe, s) && h in universe && |universe| <= cfg.maxSeen && |universe| <= cfg.maxRetry
    requires Underway(w, s, h, honest) && ttl >= w(h).deadline * 1000
    ensures var t := ScheduleRetry(cfg, s, h, ttl, now);
      CachesOk(universe, t) && HashOk(w, t, now, h, honest) && OnlyEntries(s, t, h)
  {
    hide Find, CachesOk, HashOk, OnlyEntries, Retired, Waiting, Rebook;
    LookedUp(universe, s, h, now);
    var (retry, found) := Find(s.retry, h, now);
    var s1 := s.(retry := retry);
    var n := AttemptsOf(found) + 1;
    var t := Rebook(cfg, s1, h, ttl, now, n);
    if n > MAX_FILL_RETRIES {
      RebookRetires(cfg, universe, s1, h, ttl, now, n);
      RetiredFrom(s, s1, t, h, ttl);
      RetiredIsOk(w, s, t, h, ttl, now, honest);
    } else {
      RebookStores(cfg, universe, s1, h, ttl, now, n);
      WaitingFrom(s, s1, t, h, ttl, n);
      WaitingIsOk(w, s, t, h, ttl, n, now, honest);
    }
  }

  /** Every way a call can end leaves its hash accounted for, and no other touched. */
  lemma BookedIsOk(cfg: Config, w: World, universe: set<Hash>, s: State, r: Record, t: Turn, honest: bool)
    requires CachesOk(universe, s) && r.hash in universe && |universe| <= cfg.maxSeen && |universe| <= cfg.maxRetry
    requires r.intent == w(r.hash) && t.at <= t.evalAt <= t.after && Underway(w, s, r.hash, honest)
    ensures var b := Booked(cfg, s, r, t);
      && CachesOk(universe, b) && HashOk(w, b, t.after, r.hash, honest)
      && forall g :: g != r.hash ==> Elsewhere(s, b, g)
  {
    var h, ttl := r.hash, SeenTtlMs(r.intent.deadline, t.at);
    var b := Booked(cfg, s, r, t);
    match t.outcome
    case Filled =>
      CountSnoc(s.wins, h, h);
      var s1 := s.(wins := s.wins + [h]);
      RetireEffect(cfg, universe, s1, h, ttl, t.after);
      RetiredIsOk(w, s1, b, h, ttl, t.after, honest);
      OthersAfterWin(s, s1, b, h, ttl);
    case LockedByOther =>
      RetireEffect(cfg, universe, s, h, ttl, t.after);
      RetiredIsOk(w, s, b, h, ttl, t.after, honest);
      OthersElsewhere(s, b, h);
    case FatalFailure =>
      forall g | g != h ensures Elsewhere(s, b, g) { }
    case _ =>
      ScheduledIsOk(cfg, w, universe, s, h, ttl, t.after, honest);
      OthersElsewhere(s, b, h);
  }

  lemma OthersElsewhere(s: State, t: State, h: Hash)
    requires OnlyEntries(s, t, h)
    ensures forall g :: g != h ==> Elsewhere(s, t, g)
  {
    forall g | g != h ensures Elsewhere(s, t, g) { assert SameEntries(s, t, g); }
  }

  lemma OthersAfterWin(s: State, s1: State, t: State, h: Hash, ttl: int)
    requires s1 == s.(wins := s.wins + [h]) && Retired(s1, t, h, ttl)
    ensures forall g :: g != h ==> Elsewhere(s, t, g)
  {
    forall g | g != h ensures Elsewhere(s, t, g) {
      assert SameEntries(s1, t, g);
      CountSnoc(s.wins, h, g);
    }
  }

  lemma CalledIsUnderway(w: World, universe: set<Hash>, s: State, r: Record, t: Turn, last: nat, honest: bool)
    requires CachesOk(universe, s) && HashOk(w, s, last, r.hash, honest) && !s.halted
    requires t.evalAt < w(r.hash).deadline * 1000 && r.hash !in s.seen.entries && last <= t.evalAt
    ensures var c := Called(s, r, t); CachesOk(universe, c) && Underway(w, c, r.hash, honest)
  {
    CountSnoc(s.calls, r.hash, r.hash);
    FindEffect(s.retry, r.hash, t.evalAt);
    var c := Called(s, r, t);
    assert CachesOk(universe, c) && Underway(w, c, r.hash, honest) by { hide Find, Wf, Settle; }
  }

  lemma CalledOthers(universe: set<Hash>, s: State, r: Record, t: Turn, g: Hash)
    requires CachesOk(universe, s) && g != r.hash
    ensures Elsewhere(s, Called(s, r, t), g)
  {
    CountSnoc(s.calls, r.hash, g);
    FindEffect(s.retry, r.hash, t.evalAt);
    assert Elsewhere(s, Called(s, r, t), g) by { hide Find, Wf, Settle; }
  }

  /** A fill is only ever offered well before the deadline, while anything retired is remembered past it. */
  lemma FillIsInTime(cfg: Config, w: World, s: State, r: Record, t: Turn)
    requires r.intent == w(r.hash) && Decide(cfg, s, r, t).Fill?
    ensures t.evalAt < w(r.hash).deadline * 1000
  {
    Quote.FillIsCovered(r.intent, cfg.quote, t.market, t.evalAt, s.inFlight.Committed(r.intent.destAsset));
  }

  lemma AttemptKeeps(cfg: Config, w: World, universe: set<Hash>, s: State, r: Record, t: Turn, last: nat, h: Hash, honest: bool)
    requires CachesOk(universe, s) && HashOk(w, s, last, h, honest) && HashOk(w, s, last, r.hash, h == r.hash && honest) && !s.halted
    requires r.hash in universe && |universe| <= cfg.maxSeen && |universe| <= cfg.maxRetry
    requires r.intent == w(r.hash) && Decide(cfg, s, r, t).Fill? && r.hash !in s.seen.entries
    requires last <= t.at <= t.evalAt <= t.after
    ensures var a := Attempt(cfg, s, r, t); CachesOk(universe, a) && HashOk(w, a, t.after, h, honest)
  {
    FillIsInTime(cfg, w, s, r, t);
    var c := Called(s, r, t);
    assert Attempt(cfg, s, r, t) == Booked(cfg, c, r, t);
    hide *;
    CalledIsUnderway(w, universe, s, r, t, last, h == r.hash && honest);
    BookedIsOk(cfg, w, universe, c, r, t, h == r.hash && honest);
    if h != r.hash {
      CalledOthers(universe, s, r, t, h);
      ElsewhereKeeps(w, s, c, last, t.evalAt, h, honest);
      assert Elsewhere(c, Booked(cfg, c, r, t), h);
      ElsewhereKeeps(w, c, Booked(cfg, c, r, t), t.evalAt, t.after, h, honest);
    }
  }

  // --- Expiry never frees a hash too early -------------------------------------------------

  /** Entries may only have gone by expiring. */
  ghost predicate Aged(s: State, t: State, now: nat) {
    && t.calls == s.calls && t.wins == s.wins && t.halted == s.halted
    && (forall g :: g in t.seen.entries ==> g in s.seen.entries && t.seen.entries[g] == s.seen.entries[g])
    && (forall g :: g in t.retry.entries ==> g in s.retry.entries && t.retry.entries[g] == s.retry.entries[g])
    && (forall g :: g in s.seen.entries && g !in t.seen.entries ==> now > s.seen.entries[g].deadlineMs)
    && (forall g :: g in s.retry.entries && g !in t.retry.entries ==> now > s.retry.entries[g].deadlineMs)
  }

  lemma AgedKeeps(w: World, s: State, t: State, last: nat, now: nat, h: Hash, honest: bool)
    requires HashOk(w, s, last, h, honest) && Aged(s, t, now) && last <= now
    ensures HashOk(w, t, now, h, honest)
  {
  }

  lemma FindAges<V>(c: Cache<V>, h: Hash, now: int)
    requires Wf(c)
    ensures var (d, r) := Find(c, h, now);
      && Wf(d) && d.entries.Keys <= c.entries.Keys
      && (forall g :: g in d.entries ==> d.entries[g] == c.entries[g])
      && (forall g :: g in c.entries && g !in d.entries ==> now > c.entries[g].deadlineMs)
      && (r.None? ==> h !in d.entries)
  {
    hide Find, Wf;
    FindEffect(c, h, now);
  }

  lemma BeginAges(universe: set<Hash>, s: State, start: nat)
    requires CachesOk(universe, s)
    ensures CachesOk(universe, Begin(s, start)) && Aged(s, Begin(s, start), start)
  {
    hide Sweep, Wf;
    SweepEffect(s.seen, start);
    SweepEffect(s.retry, start);
  }

  /** What the two lookups of a turn leave. */
  function LookedAt(s: State, h: Hash, at: nat): State {
    s.(seen := Find(s.seen, h, at).0, retry := Find(s.retry, h, at).0)
  }

  lemma LookedAtAges(universe: set<Hash>, s: State, h: Hash, at: nat)
    requires CachesOk(universe, s)
    ensures var t := LookedAt(s, h, at); CachesOk(universe, t) && Aged(s, t, at)
    ensures var t := s.(seen := Find(s.seen, h, at).0); CachesOk(universe, t) && Aged(s, t, at)
    ensures Find(s.seen, h, at).1.None? ==> h !in LookedAt(s, h, at).seen.entries
  {
    hide Find, Wf;
    FindAges(s.seen, h, at);
    FindAges(s.retry, h, at);
  }

  // --- One turn ------------------------------------------------------------------------------

  /** A retired hash that has never been called under an honest record, or whose entry outlives its deadline. */
  lemma RetireKeeps(cfg: Config, w: World, universe: set<Hash>, s: State, r: Record, ttl: int, last: nat, now: nat, h: Hash, honest: bool)
    requires CachesOk(universe, s) && r.hash in universe && |universe| <= cfg.maxSeen && last <= now
    requires HashOk(w, s, last, h, honest) && r.hash !in s.seen.entries
    requires h == r.hash && honest ==> ttl >= w(h).deadline * 1000
    ensures var t := Retire(cfg, s, r.hash, ttl, now); CachesOk(universe, t) && HashOk(w, t, now, h, honest)
  {
    hide Retire, CachesOk;
    RetireEffect(cfg, universe, s, r.hash, ttl, now);
    var t := Retire(cfg, s, r.hash, ttl, now);
    if h == r.hash {
      if honest { RetiredIsOk(w, s, t, h, ttl, now, honest); }
    } else {
      OthersElsewhere(s, t, r.hash);
      ElsewhereKeeps(w, s, t, last, now, h, honest);
    }
  }

  lemma DropKeeps(w: World, universe: set<Hash>, s: State, r: Record, last: nat, now: nat, h: Hash, honest: bool)
    requires CachesOk(universe, s) && HashOk(w, s, last, h, honest) && (h == r.hash ==> !honest) && last <= now
    ensures var t := s.(retry := Drop(s.retry, r.hash)); CachesOk(universe, t) && HashOk(w, t, now, h, honest)
  {
    DropWf(s.retry, r.hash);
    DroppedEntries(s.retry, r.hash);
    Forgotten(universe, s, Drop(s.retry, r.hash), r.hash);
    var t := s.(retry := Drop(s.retry, r.hash));
    hide Drop, CachesOk;
    if h != r.hash {
      OthersElsewhere(s, t, r.hash);
      ElsewhereKeeps(w, s, t, last, now, h, honest);
    }
  }

  lemma Later(w: World, s: State, last: nat, now: nat, h: Hash, honest: bool)
    requires HashOk(w, s, last, h, honest) && last <= now
    ensures HashOk(w, s, now, h, honest)
  {
  }

  /** Counting an implausible quote, or halting over it, forgets nothing. */
  lemma Distrusted(w: World, s: State, t: State, last: nat, now: nat, h: Hash, honest: bool)
    requires HashOk(w, s, last, h, honest) && last <= now
    requires t == s.(implausible := t.implausible, halted := t.halted) && (s.halted ==> t.halted)
    ensures HashOk(w, t, now, h, honest)
  {
  }

  lemma ConsiderKeeps(cfg: Config, w: World, universe: set<Hash>, s: State, r: Record, t: Turn, last: nat, h: Hash, honest: bool)
    requires CachesOk(universe, s) && !s.halted && r.hash !in s.seen.entries
    requires HashOk(w, s, last, h, honest) && HashOk(w, s, last, r.hash, h == r.hash && honest)
    requires r.hash in universe && |universe| <= cfg.maxSeen && |universe| <= cfg.maxRetry
    requires last <= t.at <= t.evalAt <= t.after && (h == r.hash && honest ==> Honest(w, r, t))
    ensures var c := Consider(cfg, w, s, r, t); CachesOk(universe, c) && HashOk(w, c, t.after, h, honest)
  {
    hide CachesOk, HashOk, Retire, Attempt, Drop;
    var ttl := SeenTtlMs(r.intent.deadline, t.at);
    if r.intent != w(r.hash) {
      RetireKeeps(cfg, w, universe, s, r, ttl, last, t.at, h, honest);
      Later(w, Consider(cfg, w, s, r, t), t.at, t.after, h, honest);
    } else if !t.valid {
      DropKeeps(w, universe, s, r, last, t.after, h, honest);
    } else {
      match Decide(cfg, s, r, t)
      case Fill(_, _, _) => AttemptKeeps(cfg, w, universe, s, r, t, last, h, honest);
      case Skip(code, terminal) =>
        Later(w, s, last, t.after, h, honest);
        if code.ImplausibleProfit? {
          Distrusted(w, s, Consider(cfg, w, s, r, t), last, t.after, h, honest);
          SameCaches(universe, s, Consider(cfg, w, s, r, t));
        } else if terminal {
          RetireKeeps(cfg, w, universe, s, r, ttl, last, t.evalAt, h, honest);
          Later(w, Consider(cfg, w, s, r, t), t.evalAt, t.after, h, honest);
        }
    }
  }

  lemma SameCaches(universe: set<Hash>, s: State, t: State)
    requires CachesOk(universe, s) && t.seen == s.seen && t.retry == s.retry
    ensures CachesOk(universe, t)
  {
  }

  lemma VisitKeeps(cfg: Config, w: World, universe: set<Hash>, s: State, r: Record, tickNow: nat, t: Turn, last: nat, h: Hash, honest: bool)
    requires CachesOk(universe, s)
    requires HashOk(w, s, last, h, honest) && HashOk(w, s, last, r.hash, h == r.hash && honest)
    requires r.hash in universe && |universe| <= cfg.maxSeen && |universe| <= cfg.maxRetry
    requires last <= t.at <= t.evalAt <= t.after && (h == r.hash && honest ==> Honest(w, r, t))
    ensures var v := Visit(cfg, w, s, r, tickNow, t); CachesOk(universe, v) && HashOk(w, v, t.after, h, honest)
  {
    hide CachesOk, HashOk, Aged, Find, Consider;
    var v := Visit(cfg, w, s, r, tickNow, t);
    LookedAtAges(universe, s, r.hash, t.at);
    var s1, s2 := s.(seen := Find(s.seen, r.hash, t.at).0), LookedAt(s, r.hash, t.at);
    if v == s {
      Later(w, s, last, t.after, h, honest);
    } else if v == s1 {
      AgedKeeps(w, s, s1, last, t.at, h, honest);
      Later(w, s1, t.at, t.after, h, honest);
    } else {
      AgedKeeps(w, s, s2, last, t.at, h, honest);
      AgedKeeps(w, s, s2, last, t.at, r.hash, h == r.hash && honest);
      if v == s2 {
        Later(w, s2, t.at, t.after, h, honest);
      } else {
        ConsiderKeeps(cfg, w, universe, s2, r, t, t.at, h, honest);
      }
    }
  }

  // --- Whole runs --------------------------------------------------------------------------------

  /** Every turn of this hash in the tick is honest. */
  ghost predicate HonestTick(w: World, tick: Tick, h: Hash) {
    |tick.records| == |tick.turns|
    && forall i :: 0 <= i < |tick.records| && tick.records[i].hash == h ==> Honest(w, tick.records[i], tick.turns[i])
  }

  ghost predicate AllWon(w: World, s: State, now: nat) {
    forall g :: HashOk(w, s, now, g, false)
  }

  ghost predicate RoomyTick(cfg: Config, universe: set<Hash>, tick: Tick) {
    |universe| <= cfg.maxSeen && |universe| <= cfg.maxRetry && forall r <- tick.records :: r.hash in universe
  }

  lemma VisitKeepsAll(cfg: Config, w: World, universe: set<Hash>, s: State, r: Record, tickNow: nat, t: Turn, last: nat, h: Hash, honest: bool)
    requires CachesOk(universe, s) && AllWon(w, s, last) && HashOk(w, s, last, h, honest)
    requires r.hash in universe && |universe| <= cfg.maxSeen && |universe| <= cfg.maxRetry
    requires last <= t.at <= t.evalAt <= t.after && (h == r.hash && honest ==> Honest(w, r, t))
    ensures var v := Visit(cfg, w, s, r, tickNow, t);
      CachesOk(universe, v) && AllWon(w, v, t.after) && HashOk(w, v, t.after, h, honest)
  {
    hide CachesOk, HashOk, Visit;
    assert HashOk(w, s, last, r.hash, false);
    forall g ensures HashOk(w, Visit(cfg, w, s, r, tickNow, t), t.after, g, false) {
      assert HashOk(w, s, last, g, false);
      VisitKeeps(cfg, w, universe, s, r, tickNow, t, last, g, false);
    }
    VisitKeeps(cfg, w, universe, s, r, tickNow, t, last, h, honest);
  }

  lemma TurnInTime(tick: Tick, n: nat, last: nat)
    requires 0 < n <= |tick.turns| && TicksOn(tick, last)
    ensures var t := tick.turns[n - 1]; TurnTime(tick, n - 1) <= t.at <= t.evalAt <= t.after == TurnTime(tick, n)
  {
  }

  lemma {:induction false} TurnsKeep(cfg: Config, w: World, universe: set<Hash>, s: State, tick: Tick, n: nat, last: nat, h: Hash, honest: bool)
    requires n <= |tick.records| == |tick.turns| && RoomyTick(cfg, universe, tick) && TicksOn(tick, last)
    requires CachesOk(universe, s) && AllWon(w, s, tick.now) && HashOk(w, s, tick.now, h, honest)
    requires honest ==> HonestTick(w, tick, h)
    ensures var t := VisitAll(cfg, w, s, tick, n); var now := TurnTime(tick, n);
      CachesOk(universe, t) && AllWon(w, t, now) && HashOk(w, t, now, h, honest)
  {
    hide CachesOk, HashOk, Visit, AllWon, TicksOn;
    if n > 0 {
      TurnsKeep(cfg, w, universe, s, tick, n - 1, last, h, honest);
      var before, r, turn := VisitAll(cfg, w, s, tick, n - 1), tick.records[n - 1], tick.turns[n - 1];
      assert r in tick.records;
      TurnInTime(tick, n, last);
      VisitKeepsAll(cfg, w, universe, before, r, tick.now, turn, TurnTime(tick, n - 1), h, honest);
    }
  }

  ghost predicate HonestRun(w: World, ticks: seq<Tick>, h: Hash) {
    forall t <- ticks :: HonestTick(w, t, h)
  }

  lemma {:induction false} RunKeeps(cfg: Config, w: World, universe: set<Hash>, ticks: seq<Tick>, h: Hash, honest: bool)
    requires WellShaped(ticks) && Monotone(ticks) && Roomy(cfg, universe, ticks) && (honest ==> HonestRun(w, ticks, h))
    ensures var s := Run(cfg, w, ticks);
      CachesOk(universe, s) && AllWon(w, s, EndTime(ticks)) && HashOk(w, s, EndTime(ticks), h, honest)
  {
    if ticks != [] {
      var m := |ticks| - 1;
      var tick, before, last := ticks[m], Run(cfg, w, ticks[..m]), EndTime(ticks[..m]);
      assert tick in ticks && Monotone(ticks[..m]);
      RunKeeps(cfg, w, universe, ticks[..m], h, honest);
      BeginAges(universe, before, tick.start);
      var begun := Begin(before, tick.start);
      hide CachesOk, HashOk, Aged, Begin, VisitAll, Monotone;
      forall g ensures HashOk(w, begun, tick.now, g, false) {
        AgedKeeps(w, before, begun, last, tick.start, g, false);
        Later(w, begun, tick.start, tick.now, g, false);
      }
      AgedKeeps(w, before, begun, last, tick.start, h, honest);
      Later(w, begun, tick.start, tick.now, h, honest);
      TurnsKeep(cfg, w, universe, begun, tick, |tick.records|, last, h, honest);
    } else {
      forall g ensures HashOk(w, START, 0, g, false) { }
    }
  }

  /**
   * Over any run with a clock that does not go back and caches with room, whatever records
   * and markets it sees, `executor.fill` succeeds at most once per hash.
   */
  lemma {:induction false} WinsAtMostOnce(cfg: Config, w: World, universe: set<Hash>, ticks: seq<Tick>, h: Hash)
    requires WellShaped(ticks) && Monotone(ticks) && Roomy(cfg, universe, ticks)
    ensures Count(Run(cfg, w, ticks).wins, h) <= 1
  {
    hide Run, CachesOk, AllWon;
    RunKeeps(cfg, w, universe, ticks, h, false);
  }

  /** And is called at most four times, as long as the hash is only ever served with its own, signed intent. */
  lemma {:induction false} AtMostFourCalls(cfg: Config, w: World, universe: set<Hash>, ticks: seq<Tick>, h: Hash)
    requires WellShaped(ticks) && Monotone(ticks) && Roomy(cfg, universe, ticks) && HonestRun(w, ticks, h)
    ensures Count(Run(cfg, w, ticks).calls, h) <= 4
  {
    hide Run, CachesOk, AllWon;
    RunKeeps(cfg, w, universe, ticks, h, true);
  }

  // --- Commitments -----------------------------------------------------------------------------------

  /** Within the tick, the provider answers the same balance for an asset every time. */
  ghost predicate SteadyBalance(tick: Tick, balance: Quote.Asset -> int) {
    |tick.records| == |tick.turns|
    && forall i :: 0 <= i < |tick.turns| ==> tick.turns[i].market.available == balance(tick.records[i].intent.destAsset)
  }

  /** Nothing active between turns, and never more held than there is. */
  ghost predicate Covered(l: Ledger, balance: Quote.Asset -> int) {
    l.reserved == map[] && forall a: Quote.Asset :: l.Committed(a) <= Max(0, balance(a))
  }

  /** What one turn adds to the held bucket. */
  function Holds(cfg: Config, w: World, s: State, r: Record, tickNow: nat, t: Turn, a: Quote.Asset): nat {
    if Visit(cfg, w, s, r, tickNow, t).calls != s.calls && r.intent.destAsset == a && !t.outcome.DefiniteFailure?
    then r.intent.minDestAmount else 0
  }

  /** During a call the reservation is covered too, and what is released or held afterwards is exactly it. */
  lemma CallIsCovered(cfg: Config, s: State, r: Record, t: Turn, balance: Quote.Asset -> int)
    requires Covered(s.inFlight, balance) && t.market.available == balance(r.intent.destAsset)
    requires Decide(cfg, s, r, t).Fill?
    ensures var a, amount := r.intent.destAsset, r.intent.minDestAmount; var during := Reserve(s.inFlight, a, amount);
      && (forall x: Quote.Asset :: during.Committed(x) <= Max(0, balance(x)))
      && during.Active(a) == amount
      && Covered(Settle(during, a, amount, t.outcome), balance)
      && forall x: Quote.Asset :: Settle(during, a, amount, t.outcome).Held(x)
           == s.inFlight.Held(x) + if x == a && !t.outcome.DefiniteFailure? then amount else 0
  {
    var a, amount := r.intent.destAsset, r.intent.minDestAmount;
    Quote.FillIsCovered(r.intent, cfg.quote, t.market, t.evalAt, s.inFlight.Committed(a));
    ReserveThenRelease(s.inFlight, a, amount);
    forall x: Quote.Asset ensures Reserve(s.inFlight, a, amount).Committed(x) <= Max(0, balance(x)) {
      assert s.inFlight.Committed(x) <= Max(0, balance(x));
    }
    forall x: Quote.Asset ensures Settle(Reserve(s.inFlight, a, amount), a, amount, t.outcome).Committed(x) <= Max(0, balance(x)) {
      assert s.inFlight.Committed(x) <= Max(0, balance(x));
    }
    hide Decide;
  }

  lemma BookingKeepsLedger(cfg: Config, s: State, h: Hash, ttl: int, now: nat, attempts: nat)
    ensures Retire(cfg, s, h, ttl, now).inFlight == s.inFlight && Retire(cfg, s, h, ttl, now).calls == s.calls
    ensures ScheduleRetry(cfg, s, h, ttl, now).inFlight == s.inFlight && ScheduleRetry(cfg, s, h, ttl, now).calls == s.calls
  {
    hide Put, Drop, Find, Pow2;
  }

  lemma AttemptLedger(cfg: Config, s: State, r: Record, t: Turn)
    ensures var n := Attempt(cfg, s, r, t); var a, amount := r.intent.destAsset, r.intent.minDestAmount;
      n.inFlight == Settle(Reserve(s.inFlight, a, amount), a, amount, t.outcome) && n.calls == s.calls + [r.hash]
  {
    hide Retire, ScheduleRetry, Find, Settle, Reserve;
    var c := Called(s, r, t);
    BookingKeepsLedger(cfg, c, r.hash, SeenTtlMs(r.intent.deadline, t.at), t.after, 0);
    BookingKeepsLedger(cfg, c.(wins := s.wins + [r.hash]), r.hash, SeenTtlMs(r.intent.deadline, t.at), t.after, 0);
  }

  lemma ConsiderLedger(cfg: Config, w: World, s: State, r: Record, t: Turn)
    ensures var c := Consider(cfg, w, s, r, t); var a, amount := r.intent.destAsset, r.intent.minDestAmount;
      if r.intent == w(r.hash) && t.valid && Decide(cfg, s, r, t).Fill?
      then c.inFlight == Settle(Reserve(s.inFlight, a, amount), a, amount, t.outcome) && c.calls == s.calls + [r.hash]
      else c.inFlight == s.inFlight && c.calls == s.calls
  {
    hide Retire, Attempt, Drop, Settle, Reserve, Decide, SeenTtlMs;
    BookingKeepsLedger(cfg, s, r.hash, SeenTtlMs(r.intent.deadline, t.at), t.at, 0);
    BookingKeepsLedger(cfg, s, r.hash, SeenTtlMs(r.intent.deadline, t.at), t.evalAt, 0);
    AttemptLedger(cfg, s, r, t);
  }

  lemma VisitLedger(cfg: Config, w: World, s: State, r: Record, tickNow: nat, t: Turn, balance: Quote.Asset -> int)
    requires Covered(s.inFlight, balance) && t.market.available == balance(r.intent.destAsset)
    ensures var v := Visit(cfg, w, s, r, tickNow, t);
      && Covered(v.inFlight, balance)
      && forall a: Quote.Asset :: v.inFlight.Held(a) == s.inFlight.Held(a) + Holds(cfg, w, s, r, tickNow, t, a)
  {
    hide Consider, Find, Covered, Decide, Settle;
    var v := Visit(cfg, w, s, r, tickNow, t);
    var s2 := LookedAt(s, r.hash, t.at);
    ConsiderLedger(cfg, w, s2, r, t);
    if Decide(cfg, s2, r, t).Fill? { CallIsCovered(cfg, s2, r, t, balance); }
  }

  function HeldBy(cfg: Config, w: World, s: State, tick: Tick, n: nat, a: Quote.Asset): nat
    requires n <= |tick.records| && |tick.records| == |tick.turns|
  {
    if n == 0 then 0
    else HeldBy(cfg, w, s, tick, n - 1, a)
         + Holds(cfg, w, VisitAll(cfg, w, s, tick, n - 1), tick.records[n - 1], tick.now, tick.turns[n - 1], a)
  }

  lemma {:induction false} TurnsCovered(cfg: Config, w: World, s: State, tick: Tick, n: nat, balance: Quote.Asset -> int)
    requires n <= |tick.records| && SteadyBalance(tick, balance) && Covered(s.inFlight, balance) && s.inFlight.held == map[]
    ensures var t := VisitAll(cfg, w, s, tick, n);
      && Covered(t.inFlight, balance)
      && forall a: Quote.Asset :: t.inFlight.Held(a) == HeldBy(cfg, w, s, tick, n, a)
  {
    hide Visit, Covered, Holds;
    if n > 0 {
      TurnsCovered(cfg, w, s, tick, n - 1, balance);
      assert tick.turns[n - 1].market.available == balance(tick.records[n - 1].intent.destAsset);
      VisitLedger(cfg, w, VisitAll(cfg, w, s, tick, n - 1), tick.records[n - 1], tick.now, tick.turns[n - 1], balance);
    }
  }

  /**
   * In every tick of every run in which balances hold still, after each turn what is
   * committed is covered, nothing stays reserved, and what is held is exactly the fills
   * that did not definitely fail.
   */
  lemma {:induction false} NeverOvercommits(cfg: Config, w: World, s: State, tick: Tick, n: nat, balance: Quote.Asset -> int)
    requires n <= |tick.records| && SteadyBalance(tick, balance) && s.inFlight.reserved == map[] && !s.halted
    ensures var t := VisitAll(cfg, w, Begin(s, tick.start), tick, n);
      && t.inFlight.reserved == map[]
      && (forall a: Quote.Asset :: t.inFlight.Committed(a) <= Max(0, balance(a)))
      && (forall a: Quote.Asset :: t.inFlight.Held(a) == HeldBy(cfg, w, Begin(s, tick.start), tick, n, a))
  {
    hide Sweep, VisitAll, HeldBy;
    TurnsCovered(cfg, w, Begin(s, tick.start), tick, n, balance);
  }

  lemma {:induction false} NothingStaysReserved(cfg: Config, w: World, ticks: seq<Tick>)
    requires WellShaped(ticks)
    ensures Run(cfg, w, ticks).inFlight.reserved == map[]
  {
    if ticks != [] {
      var m := |ticks| - 1;
      NothingStaysReserved(cfg, w, ticks[..m]);
      TurnsReserveNothing(cfg, w, Begin(Run(cfg, w, ticks[..m]), ticks[m].start), ticks[m], |ticks[m].records|);
      hide VisitAll, Sweep;
    }
  }

  lemma VisitReservesNothing(cfg: Config, w: World, s: State, r: Record, tickNow: nat, t: Turn)
    requires s.inFlight.reserved == map[]
    ensures Visit(cfg, w, s, r, tickNow, t).inFlight.reserved == map[]
  {
    hide Consider, Find, Decide;
    ConsiderLedger(cfg, w, LookedAt(s, r.hash, t.at), r, t);
    ReserveThenRelease(s.inFlight, r.intent.destAsset, r.intent.minDestAmount);
  }

  lemma {:induction false} TurnsReserveNothing(cfg: Config, w: World, s: State, tick: Tick, n: nat)
    requires n <= |tick.records| == |tick.turns| && s.inFlight.reserved == map[]
    ensures VisitAll(cfg, w, s, tick, n).inFlight.reserved == map[]
  {
    if n > 0 {
      hide Visit;
      TurnsReserveNothing(cfg, w, s, tick, n - 1);
      VisitReservesNothing(cfg, w, VisitAll(cfg, w, s, tick, n - 1), tick.records[n - 1], tick.now, tick.turns[n - 1]);
    }
  }
}
