/**
 * The solver's classes (solver.ts, seen-lru.ts, inventory.ts), proved against module Solving.
 * The methods follow the branches of its transitions; what they add is the loops, four
 * objects updated in turn, and the order of calls: the reservation is settled last, which
 * `SettledLast` shows to be the same. The theorems about runs are in Solving.
 */
module Solver {
  import opened Prelude
  import opened OrderedSet
  import opened Lru
  import opened Commitments
  import opened Solving
  import Quote

  /** SeenLRU with insertion times, RetryStateLRU with retry states: a `Map` in order of use. */
  class LruCache<V> {
    const maxSize: nat
    var order: seq<Hash>
    var entries: map<Hash, Entry<V>>

    function View(): Cache<V>
      reads this
    {
      Cache(order, entries)
    }

    constructor (maxSize: nat)
      ensures this.maxSize == maxSize && View() == Empty()
    {
      this.maxSize, order, entries := maxSize, [], map[];
    }

    method Delete(h: Hash)
      modifies this
      ensures View() == Drop(old(View()), h)
    {
      order := Without(order, h);
      entries := entries - {h};
    }

    /** An expired entry is evicted lazily; a live one is refreshed. */
    method Get(h: Hash, now: int) returns (r: Option<V>)
      modifies this
      ensures (View(), r) == Find(old(View()), h, now)
    {
      if h !in entries { return None; }
      var entry := entries[h];
      if now > entry.deadlineMs {
        Delete(h);
        return None;
      }
      Delete(h);
      order := order + [h];
      entries := entries[h := entry];
      assert entries == old(entries);
      r := Some(entry.value);
    }

    /** Re-insertion refreshes the order; at capacity the first entry goes. */
    method Set(h: Hash, value: V, deadlineMs: int)
      modifies this
      ensures View() == Put(old(View()), maxSize, h, Entry(deadlineMs, value))
    {
      Delete(h);
      if |entries| >= maxSize {
        if order != [] { Delete(order[0]); }
      }
      order := order + [h];
      entries := entries[h := Entry(deadlineMs, value)];
    }

    method EvictExpired(now: int) returns (evicted: nat)
      modifies this
      ensures View() == Sweep(old(View()), now) && evicted == |old(entries)| - |entries|
    {
      hide Drop;
      evicted := 0;
      var walk := order;
      for i := 0 to |walk|
        invariant View() == SweepThese(old(View()), walk[..i], now) && evicted == |old(entries)| - |entries|
      {
        assert walk[..i + 1][..i] == walk[..i];
        var h := walk[i];
        if h in entries && now > entries[h].deadlineMs {
          DropTakesOne(View(), h);
          Delete(h);
          evicted := evicted + 1;
        }
      }
      assert walk[..|walk|] == walk;
    }
  }

  class InFlightTracker {
    var reserved: map<Asset, nat>
    var held: map<Asset, nat>

    function View(): Ledger
      reads this
    {
      Ledger(reserved, held)
    }

    constructor ()
      ensures View() == NOTHING
    {
      reserved, held := map[], map[];
    }

    method Reserve(asset: Asset, amount: nat)
      modifies this`reserved
      ensures View() == Commitments.Reserve(old(View()), asset, amount)
    {
      reserved := reserved[asset := View().Active(asset) + amount];
    }

    method Release(asset: Asset, amount: nat)
      modifies this`reserved
      ensures View() == Commitments.Release(old(View()), asset, amount)
    {
      var current := View().Active(asset);
      var next := if current > amount then current - amount else 0;
      if next == 0 {
        reserved := reserved - {asset};
      } else {
        reserved := reserved[asset := next];
      }
    }

    method HoldForRefresh(asset: Asset, amount: nat)
      modifies this
      ensures View() == Hold(old(View()), asset, amount)
    {
      Release(asset, amount);
      held := held[asset := View().Held(asset) + amount];
    }

    method FlushHeld() returns (count: nat)
      modifies this`held
      ensures View() == Commitments.FlushHeld(old(View())) && count == |old(held)|
    {
      count := |held|;
      held := map[];
    }

    method ReservedFor(asset: Asset) returns (r: nat)
      ensures r == View().Committed(asset)
    {
      r := (if asset in reserved then reserved[asset] else 0) + (if asset in held then held[asset] else 0);
    }
  }

  class Solver {
    const config: Config
    const world: World
    const seen: LruCache<int>
    const retryState: LruCache<RetryState>
    const inFlight: InFlightTracker
    var consecutiveImplausible: nat
    var halted: bool
    var calls: seq<Hash>
    var wins: seq<Hash>

    predicate Valid()
      reads this, seen, retryState
    {
      seen.maxSize == config.maxSeen && retryState.maxSize == config.maxRetry && (seen as object) != retryState
    }

    ghost function View(): State
      reads this, seen, retryState, inFlight
    {
      State(seen.View(), retryState.View(), inFlight.View(), consecutiveImplausible, halted, calls, wins)
    }

    constructor (config: Config, world: World)
      ensures this.config == config && this.world == world && Valid() && View() == START
      ensures fresh(seen) && fresh(retryState) && fresh(inFlight)
    {
      this.config, this.world := config, world;
      seen := new LruCache<int>(config.maxSeen);
      retryState := new LruCache<RetryState>(config.maxRetry);
      inFlight := new InFlightTracker();
      consecutiveImplausible, halted, calls, wins := 0, false, [], [];
    }

    method RetireHash(h: Hash, deadlineMs: int, now: int)
      requires Valid()
      modifies seen, retryState
      ensures Valid() && View() == Retire(config, old(View()), h, deadlineMs, now)
    {
      hide Put, Drop;
      seen.Set(h, now, deadlineMs);
      retryState.Delete(h);
    }

    method ScheduleRetry(h: Hash, deadlineMs: int, now: nat)
      requires Valid()
      modifies seen, retryState
      ensures Valid() && View() == Solving.ScheduleRetry(config, old(View()), h, deadlineMs, now)
    {
      hide Put, Drop, Find;
      var state := retryState.Get(h, now);
      var attempts := (if state.Some? then state.value.attempts else 0) + 1;
      if attempts > MAX_FILL_RETRIES {
        RetireHash(h, deadlineMs, now);
      } else {
        retryState.Set(h, RetryState(attempts, now + 1000 * Solving.Pow2(attempts - 1)), deadlineMs);
      }
    }

    /** Reserve, fill, book; the reservation is settled last, as `finally` does. */
    method AttemptFill(r: Record, t: Turn)
      requires Valid()
      modifies this`consecutiveImplausible, this`halted, this`calls, this`wins, seen, retryState, inFlight
      ensures Valid() && View() == Attempt(config, old(View()), r, t)
    {
      hide Put, Drop, Find, Commitments.Reserve, Commitments.Release, Hold, Solving.ScheduleRetry, Retire;
      var deadlineMs := SeenTtlMs(r.intent.deadline, t.at);
      consecutiveImplausible := 0;
      var retry := retryState.Get(r.hash, t.evalAt);
      inFlight.Reserve(r.intent.destAsset, r.intent.minDestAmount);
      calls := calls + [r.hash];
      match t.outcome {
        case Filled =>
          wins := wins + [r.hash];
          RetireHash(r.hash, deadlineMs, t.after);
        case LockedByOther => RetireHash(r.hash, deadlineMs, t.after);
        case FatalFailure => halted := true;
        case _ => ScheduleRetry(r.hash, deadlineMs, t.after);
      }
      if t.outcome.DefiniteFailure? {
        inFlight.Release(r.intent.destAsset, r.intent.minDestAmount);
      } else {
        inFlight.HoldForRefresh(r.intent.destAsset, r.intent.minDestAmount);
      }
      SettledLast(config, old(View()), r, t);
    }

    /** `evaluate` on what the dependencies answer and what is committed at that moment. */
    method Evaluate(r: Record, t: Turn) returns (d: Quote.Decision)
      ensures d == Decide(config, View(), r, t)
    {
      hide Quote.Evaluate;
      var reserved := inFlight.ReservedFor(r.intent.destAsset);
      d := Quote.Evaluate(r.intent, config.quote, t.market, t.evalAt, reserved);
    }

    method Consider(r: Record, t: Turn)
      requires Valid()
      modifies this`consecutiveImplausible, this`halted, this`calls, this`wins, seen, retryState, inFlight
      ensures Valid() && View() == Solving.Consider(config, world, old(View()), r, t)
    {
      hide Put, Drop, Find, Decide, Attempt, Retire;
      var deadlineMs := SeenTtlMs(r.intent.deadline, t.at);
      if r.intent != world(r.hash) {
        RetireHash(r.hash, deadlineMs, t.at);
        return;
      }
      if !t.valid {
        retryState.Delete(r.hash);
        return;
      }
      var decision := Evaluate(r, t);
      match decision {
        case Skip(code, terminal) =>
          if code.ImplausibleProfit? {
            consecutiveImplausible := consecutiveImplausible + 1;
            halted := consecutiveImplausible >= config.quote.maxImplausibleTriggers;
          } else if terminal {
            RetireHash(r.hash, deadlineMs, t.evalAt);
          }
        case Fill(_, _, _) => AttemptFill(r, t);
      }
    }

    /** One iteration of the tick's loop. */
    method Visit(r: Record, tickNow: nat, t: Turn)
      requires Valid() && !halted
      modifies this`consecutiveImplausible, this`halted, this`calls, this`wins, seen, retryState, inFlight
      ensures Valid() && View() == Solving.Visit(config, world, old(View()), r, tickNow, t)
    {
      hide Find, Solving.Consider;
      var hit := seen.Get(r.hash, t.at);
      if hit.Some? { return; }
      var waiting := retryState.Get(r.hash, t.at);
      if waiting.Some? && tickNow < waiting.value.nextRetryAt { return; }
      Consider(r, t);
    }

    /** `tick`, up to the fatal error that ends the process. */
    method RunTick(tick: Solving.Tick)
      requires Valid() && |tick.records| == |tick.turns|
      modifies this`consecutiveImplausible, this`halted, this`calls, this`wins, seen, retryState, inFlight
      ensures Valid() && View() == Solving.RunTick(config, world, old(View()), tick)
    {
      hide Sweep, Solving.Visit;
      if !halted {
        var _ := seen.EvictExpired(tick.start);
        var _ := retryState.EvictExpired(tick.start);
        var _ := inFlight.FlushHeld();
      }
      ghost var begun := View();
      for i := 0 to |tick.records|
        invariant Valid() && View() == VisitAll(config, world, begun, tick, i)
      {
        if halted {
          HaltedStays(config, world, begun, tick, i);
          return;
        }
        Visit(tick.records[i], tick.now, tick.turns[i]);
      }
    }
  }

  /** Booking an outcome and settling its reservation touch different things. */
  lemma SettledLast(cfg: Config, s: State, r: Record, t: Turn)
    ensures var a, amount := r.intent.destAsset, r.intent.minDestAmount;
      var ttl := SeenTtlMs(r.intent.deadline, t.at);
      var s1 := s.(implausible := 0, retry := Find(s.retry, r.hash, t.evalAt).0, calls := s.calls + [r.hash],
                   inFlight := Commitments.Reserve(s.inFlight, a, amount));
      var booked := match t.outcome
        case Filled => Retire(cfg, s1.(wins := s.wins + [r.hash]), r.hash, ttl, t.after)
        case LockedByOther => Retire(cfg, s1, r.hash, ttl, t.after)
        case FatalFailure => s1.(halted := true)
        case _ => Solving.ScheduleRetry(cfg, s1, r.hash, ttl, t.after);
      Attempt(cfg, s, r, t) == booked.(inFlight := Settle(Commitments.Reserve(s.inFlight, a, amount), a, amount, t.outcome))
      && booked.inFlight == Commitments.Reserve(s.inFlight, a, amount)
  {
    hide Put, Drop, Find, Settle, Commitments.Reserve, Solving.Pow2;
  }

  lemma HaltedVisit(cfg: Config, w: World, s: State, r: Record, tickNow: nat, t: Turn)
    requires s.halted
    ensures Solving.Visit(cfg, w, s, r, tickNow, t) == s
  {
    hide Solving.Consider, Find;
  }

  lemma {:induction false} HaltedStays(cfg: Config, w: World, s: State, tick: Solving.Tick, i: nat)
    requires i <= |tick.records| == |tick.turns| && VisitAll(cfg, w, s, tick, i).halted
    ensures VisitAll(cfg, w, s, tick, |tick.records|) == VisitAll(cfg, w, s, tick, i)
    decreases |tick.records| - i
  {
    if i < |tick.records| {
      hide Solving.Visit;
      HaltedVisit(cfg, w, VisitAll(cfg, w, s, tick, i), tick.records[i], tick.now, tick.turns[i]);
      HaltedStays(cfg, w, s, tick, i + 1);
    }
  }
}
