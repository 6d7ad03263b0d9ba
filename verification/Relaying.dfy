/**
 * One direction of the relayer (relayer.ts, dead-letter.ts): poll, confirm, deliver,
 * retry, dead-letter, advance the cursor. Proved over whole runs: the cursor never skips
 * a message, nothing that landed is sent again, and a run of retries ends.
 */
module Relaying {
  import opened Prelude
  import opened Reorg

  datatype MessageType = FillInstruction | FillConfirmed | CancelIntent

  /** The composite identity of a message. */
  datatype Key = Key(srcEid: nat, dstEid: nat, intentHash: seq<byte>, messageType: MessageType, nonce: nat)

  datatype Pending = Pending(key: Key, srcBlock: nat)

  datatype RetryState = RetryState(attempts: nat, nextRetryAt: nat)

  datatype DeadLetter = DeadLetter(pending: Pending, attempts: nat)

  datatype Config = Config(confirmations: nat, startBlock: nat, maxAttempts: nat, baseBackoffMs: nat)

  datatype Metrics = Metrics(delivered: nat, alreadyDelivered: nat, failed: nat, deadLettered: nat, maxRetryDepth: nat, unresolved: nat)

  datatype RelayResult = RelayResult(key: Key, delivered: bool, resolved: bool, alreadyDelivered: bool)

  /**
   * The loop, its two stores, and the destination: `landed` is what the destination
   * holds, `submitted` every call to `deliver`, `taken` what operators took out of the
   * dead-letter queue. `savedDead` is the dead-letter file; with an in-memory store there
   * is none.
   */
  datatype State = State(
    cursor: nat,
    checkpoint: Option<nat>,
    attempts: map<Key, RetryState>,
    dead: map<Key, DeadLetter>,
    savedDead: Option<map<Key, DeadLetter>>,
    window: seq<Block>,
    metrics: Metrics,
    landed: set<Key>,
    submitted: seq<Key>,
    taken: set<Key>)

  datatype Call = Returns | Throws | Fatal

  /**
   * What the world does while one message is relayed: `lands` reach the destination by
   * other ways first; then `isDelivered` answers truthfully or fails; then `deliver`
   * works, or fails whether or not the message landed.
   */
  datatype Weather = Weather(now: nat, lands: set<Key>, check: Call, send: Call, landedAnyway: bool, failedAt: nat)

  /** Hash and parent hash of the head, if the watcher gives them. */
  datatype Tip = Tip(hash: BlockHash, parentHash: BlockHash)

  datatype Poll = Poll(messages: seq<Pending>, head: nat, tip: Option<Tip>, blockHeaders: seq<Block>)

  const NO_METRICS := Metrics(0, 0, 0, 0, 0, 0)

  /** `durable` is the choice of the dead-letter store: on file, or in memory only. */
  function Initial(cfg: Config, durable: bool): State {
    State(cfg.startBlock, None, map[], map[], if durable then Some(map[]) else None, [], NO_METRICS, {}, [], {})
  }

  function Pow2(n: nat): nat {
    if n == 0 then 1 else 2 * Pow2(n - 1)
  }

  // --- One message --------------------------------------------------------------------

  /** A failed attempt: back off, or give the message up once the budget is spent. */
  function Failed(cfg: Config, s: State, p: Pending, failedAt: nat): (State, RelayResult) {
    var attempt := (if p.key in s.attempts then s.attempts[p.key].attempts else 0) + 1;
    var m := s.metrics.(maxRetryDepth := Max(s.metrics.maxRetryDepth, attempt));
    if attempt >= cfg.maxAttempts then
      (s.(dead := s.dead[p.key := DeadLetter(p, attempt)], attempts := s.attempts - {p.key},
          metrics := m.(deadLettered := m.deadLettered + 1)),
       RelayResult(p.key, false, true, false))
    else
      (s.(attempts := s.attempts[p.key := RetryState(attempt, failedAt + cfg.baseBackoffMs * Pow2(attempt - 1))],
          metrics := m.(failed := m.failed + 1)),
       RelayResult(p.key, false, false, false))
  }

  function Found(s: State, p: Pending): (State, RelayResult) {
    (s.(attempts := s.attempts - {p.key}, metrics := s.metrics.(alreadyDelivered := s.metrics.alreadyDelivered + 1)),
     RelayResult(p.key, false, true, true))
  }

  function Sent(s: State, p: Pending): (State, RelayResult) {
    (s.(attempts := s.attempts - {p.key}, metrics := s.metrics.(delivered := s.metrics.delivered + 1)),
     RelayResult(p.key, true, true, false))
  }

  predicate Deferred(s: State, p: Pending, now: nat) {
    p.key in s.attempts && now < s.attempts[p.key].nextRetryAt
  }

  /** The destination after a submission. */
  function Submit(s: State, p: Pending, w: Weather): State {
    s.(submitted := s.submitted + [p.key],
       landed := if w.send.Returns? || w.landedAnyway then s.landed + {p.key} else s.landed)
  }

  /** `relayOne`; no result means a fatal error. */
  function RelayOne(cfg: Config, s: State, p: Pending, w: Weather): (State, Option<RelayResult>) {
    var s0 := s.(landed := s.landed + w.lands);
    if p.key in s.dead then (s0, Some(RelayResult(p.key, false, true, false)))
    else if Deferred(s, p, w.now) then (s0, Some(RelayResult(p.key, false, false, false)))
    else if w.check.Fatal? then (s0, None)
    else if w.check.Throws? then var (t, r) := Failed(cfg, s0, p, w.failedAt); (t, Some(r))
    else if p.key in s0.landed then var (t, r) := Found(s0, p); (t, Some(r))
    else
      var s1 := Submit(s0, p, w);
      match w.send
      case Fatal => (s1, None)
      case Throws => var (t, r) := Failed(cfg, s1, p, w.failedAt); (t, Some(r))
      case Returns => var (t, r) := Sent(s1, p); (t, Some(r))
  }

  // --- One tick -----------------------------------------------------------------------

  datatype Progress = Progress(state: State, results: seq<RelayResult>, fatal: bool)

  function RelayAll(cfg: Config, s: State, ms: seq<Pending>, ws: seq<Weather>, confirmedHead: nat): Progress
    requires |ms| <= |ws|
  {
    if ms == [] then Progress(s, [], false)
    else
      var m := |ms| - 1;
      var p := RelayAll(cfg, s, ms[..m], ws, confirmedHead);
      if p.fatal || ms[m].srcBlock > confirmedHead then p
      else
        match RelayOne(cfg, p.state, ms[m], ws[m])
        case (t, None) => Progress(t, p.results, true)
        case (t, Some(r)) => Progress(t, p.results + [r], false)
  }

  function Keys(ms: seq<Pending>): set<Key> {
    set i | 0 <= i < |ms| :: ms[i].key
  }

  /** Retry budgets of messages no longer observed are forgotten. */
  function Prune(s: State, ms: seq<Pending>): State {
    s.(attempts := map k | k in s.attempts && k in Keys(ms) :: s.attempts[k])
  }

  /** The last result of each key. */
  function ResultByKey(results: seq<RelayResult>): map<Key, RelayResult> {
    if results == [] then map[]
    else
      var r := results[|results| - 1];
      ResultByKey(results[..|results| - 1])[r.key := r]
  }

  predicate Pins(p: Pending, byKey: map<Key, RelayResult>, confirmedHead: nat) {
    p.srcBlock <= confirmedHead && p.key in byKey && !byKey[p.key].resolved
  }

  /** The lowest block a message is still held at; none is infinity. */
  function LowestUnresolved(ms: seq<Pending>, byKey: map<Key, RelayResult>, confirmedHead: nat): Option<nat> {
    if ms == [] then None
    else
      var p := ms[|ms| - 1];
      var low := LowestUnresolved(ms[..|ms| - 1], byKey, confirmedHead);
      if !Pins(p, byKey, confirmedHead) then low
      else if low.None? then Some(p.srcBlock)
      else Some(Min(low.value, p.srcBlock))
  }

  function CountUnresolved(results: seq<RelayResult>): nat {
    if results == [] then 0
    else CountUnresolved(results[..|results| - 1]) + if results[|results| - 1].resolved then 0 else 1
  }

  function ConfirmedHead(cfg: Config, head: nat): nat {
    Max(0, head - cfg.confirmations)
  }

  function NextCursor(confirmedHead: nat, lowest: Option<nat>): nat {
    if lowest.None? then confirmedHead + 1 else Min(confirmedHead + 1, lowest.value)
  }

  function WindowLimit(cfg: Config): nat {
    Max(cfg.confirmations + 10, 20)
  }

  /** The headers of this poll, the head's last. */
  function Recorded(cfg: Config, s: State, p: Poll): State {
    match p.tip
    case None => s
    case Some(tip) =>
      s.(window := RecordAll(s.window, WindowLimit(cfg), p.blockHeaders + [Block(p.head, tip.hash, tip.parentHash)]))
  }

  function ReorgDepth(cfg: Config, s: State, p: Poll): nat {
    if p.tip.None? then 0 else DetectReorg(s.window, cfg.startBlock, p.head, p.tip.value.parentHash)
  }

  /** A reorg the loop answers by moving its cursor. */
  predicate RollsBack(cfg: Config, s: State, p: Poll) {
    var depth := ReorgDepth(cfg, s, p);
    depth > 0 && (depth <= cfg.confirmations || (p.head == s.cursor && p.messages != []))
  }

  /** Where a rollback puts the cursor. */
  function RollbackTarget(cfg: Config, s: State, p: Poll): nat {
    Max(cfg.startBlock, p.head - ReorgDepth(cfg, s, p))
  }

  function RolledBack(cfg: Config, s: State, p: Poll): State {
    Recorded(cfg, s, p).(cursor := RollbackTarget(cfg, s, p))
  }

  /** Before the first message has its turn. */
  function Prepared(cfg: Config, s: State, p: Poll): State {
    Prune(Recorded(cfg, s, p), p.messages)
  }

  /** Cursor, checkpoint and dead letters after every message had its turn. */
  function Advance(confirmedHead: nat, ms: seq<Pending>, p: Progress): State {
    var lowest := LowestUnresolved(ms, ResultByKey(p.results), confirmedHead);
    var cursor := Max(p.state.cursor, NextCursor(confirmedHead, lowest));
    p.state.(cursor := cursor, checkpoint := Some(cursor),
             savedDead := if p.state.savedDead.Some? then Some(p.state.dead) else None,
             metrics := p.state.metrics.(unresolved := CountUnresolved(p.results)))
  }

  /** `tick`; no results means it threw. */
  function Tick(cfg: Config, s: State, p: Poll, ws: seq<Weather>): (State, Option<seq<RelayResult>>)
    requires |p.messages| <= |ws|
  {
    if RollsBack(cfg, s, p) then (RolledBack(cfg, s, p), Some([]))
    else
      var confirmedHead := ConfirmedHead(cfg, p.head);
      var progress := RelayAll(cfg, Prepared(cfg, s, p), p.messages, ws, confirmedHead);
      if progress.fatal then (progress.state, None)
      else (Advance(confirmedHead, p.messages, progress), Some(progress.results))
  }

  /** A restart loses what is only in memory: retry budgets, block window, and a dead-letter queue without a file. */
  function Resume(cfg: Config, s: State): State {
    s.(cursor := s.checkpoint.UnwrapOr(cfg.startBlock), attempts := map[], dead := s.savedDead.UnwrapOr(map[]),
       window := [], metrics := NO_METRICS)
  }

  // --- Nothing that landed is sent again --------------------------------------------------

  /** Whatever one message's turn does, landed, dead and submitted only grow. */
  lemma RelayOneGrows(cfg: Config, s: State, p: Pending, w: Weather)
    ensures var (t, _) := RelayOne(cfg, s, p, w);
      && s.landed <= t.landed && s.submitted <= t.submitted && s.dead.Keys <= t.dead.Keys
      && t.cursor == s.cursor && t.checkpoint == s.checkpoint && t.savedDead == s.savedDead && t.taken == s.taken
  {
    hide Pow2;
  }

  /** A message is submitted at most once per turn, and never if it has landed or was given up. */
  lemma SubmitsOnlyIfMissing(cfg: Config, s: State, p: Pending, w: Weather)
    ensures var (t, _) := RelayOne(cfg, s, p, w);
      t.submitted != s.submitted ==>
        t.submitted == s.submitted + [p.key] && p.key !in s.landed && p.key !in s.dead && !Deferred(s, p, w.now)
  {
  }

  /** A resolved message is at the destination or in the dead-letter queue. */
  lemma ResolvedMeansHandled(cfg: Config, s: State, p: Pending, w: Weather)
    ensures var (t, r) := RelayOne(cfg, s, p, w);
      r.Some? ==> r.value.key == p.key && (r.value.resolved ==> p.key in t.landed || p.key in t.dead)
  {
  }

  lemma {:induction false} RelayAllGrows(cfg: Config, s: State, ms: seq<Pending>, ws: seq<Weather>, confirmedHead: nat)
    requires |ms| <= |ws|
    ensures var t := RelayAll(cfg, s, ms, ws, confirmedHead).state;
      && s.landed <= t.landed && s.submitted <= t.submitted && s.dead.Keys <= t.dead.Keys
      && t.cursor == s.cursor && t.checkpoint == s.checkpoint && t.savedDead == s.savedDead && t.taken == s.taken
  {
    if ms != [] {
      var m := |ms| - 1;
      RelayAllGrows(cfg, s, ms[..m], ws, confirmedHead);
      RelayOneGrows(cfg, RelayAll(cfg, s, ms[..m], ws, confirmedHead).state, ms[m], ws[m]);
      hide RelayOne;
    }
  }

  /** Over a whole tick, everything submitted was observed, confirmed, and neither landed nor given up before. */
  lemma {:induction false} TickSubmits(cfg: Config, s: State, ms: seq<Pending>, ws: seq<Weather>, confirmedHead: nat, i: nat)
    requires |ms| <= |ws|
    requires |s.submitted| <= i < |RelayAll(cfg, s, ms, ws, confirmedHead).state.submitted|
    ensures var key := RelayAll(cfg, s, ms, ws, confirmedHead).state.submitted[i];
      key !in s.landed && key !in s.dead && exists p <- ms :: p.key == key && p.srcBlock <= confirmedHead
  {
    if ms != [] {
      var m := |ms| - 1;
      var before := RelayAll(cfg, s, ms[..m], ws, confirmedHead);
      var t := RelayAll(cfg, s, ms, ws, confirmedHead).state;
      RelayAllGrows(cfg, s, ms[..m], ws, confirmedHead);
      RelayOneGrows(cfg, before.state, ms[m], ws[m]);
      SubmitsOnlyIfMissing(cfg, before.state, ms[m], ws[m]);
      hide RelayOne;
      if i < |before.state.submitted| {
        assert t.submitted[i] == before.state.submitted[i];
        TickSubmits(cfg, s, ms[..m], ws, confirmedHead, i);
        var p :| p in ms[..m] && p.key == t.submitted[i] && p.srcBlock <= confirmedHead;
        assert p in ms;
      } else {
        assert t.submitted[i] == ms[m].key && ms[m] in ms;
      }
    }
  }

  // --- The cursor never skips ---------------------------------------------------------------

  lemma {:induction false} ResultsCover(cfg: Config, s: State, ms: seq<Pending>, ws: seq<Weather>, confirmedHead: nat, p: Pending)
    requires |ms| <= |ws| && p in ms && p.srcBlock <= confirmedHead
    requires !RelayAll(cfg, s, ms, ws, confirmedHead).fatal
    ensures p.key in ResultByKey(RelayAll(cfg, s, ms, ws, confirmedHead).results)
  {
    var m := |ms| - 1;
    var before := RelayAll(cfg, s, ms[..m], ws, confirmedHead);
    assert ms == ms[..m] + [ms[m]];
    if ms[m].srcBlock > confirmedHead {
      ResultsCover(cfg, s, ms[..m], ws, confirmedHead, p);
    } else {
      ResolvedMeansHandled(cfg, before.state, ms[m], ws[m]);
      var r := RelayOne(cfg, before.state, ms[m], ws[m]).1.value;
      assert (before.results + [r])[..|before.results|] == before.results;
      if p != ms[m] { ResultsCover(cfg, s, ms[..m], ws, confirmedHead, p); }
      hide RelayOne;
    }
  }

  lemma {:induction false} ResolvedAreHandled(cfg: Config, s: State, ms: seq<Pending>, ws: seq<Weather>, confirmedHead: nat, k: Key)
    requires |ms| <= |ws|
    ensures var p := RelayAll(cfg, s, ms, ws, confirmedHead); var byKey := ResultByKey(p.results);
      k in byKey && byKey[k].resolved ==> k in p.state.landed || k in p.state.dead
  {
    if ms != [] {
      var m := |ms| - 1;
      var before := RelayAll(cfg, s, ms[..m], ws, confirmedHead);
      ResolvedAreHandled(cfg, s, ms[..m], ws, confirmedHead, k);
      RelayOneGrows(cfg, before.state, ms[m], ws[m]);
      ResolvedMeansHandled(cfg, before.state, ms[m], ws[m]);
      var (t, r) := RelayOne(cfg, before.state, ms[m], ws[m]);
      if r.Some? {
        assert (before.results + [r.value])[..|before.results|] == before.results;
      }
      hide RelayOne;
    }
  }

  lemma {:induction false} LowestIsBelow(ms: seq<Pending>, byKey: map<Key, RelayResult>, confirmedHead: nat, p: Pending)
    requires p in ms && Pins(p, byKey, confirmedHead)
    ensures var low := LowestUnresolved(ms, byKey, confirmedHead); low.Some? && low.value <= p.srcBlock
  {
    var m := |ms| - 1;
    if p != ms[m] {
      assert ms == ms[..m] + [ms[m]];
      LowestIsBelow(ms[..m], byKey, confirmedHead, p);
    }
  }

  lemma {:induction false} LowestIsPinned(ms: seq<Pending>, byKey: map<Key, RelayResult>, confirmedHead: nat)
    requires LowestUnresolved(ms, byKey, confirmedHead).Some?
    ensures exists p <- ms :: Pins(p, byKey, confirmedHead) && p.srcBlock == LowestUnresolved(ms, byKey, confirmedHead).value
  {
    var m := |ms| - 1;
    var low := LowestUnresolved(ms, byKey, confirmedHead).value;
    if Pins(ms[m], byKey, confirmedHead) && ms[m].srcBlock == low {
      assert ms[m] in ms;
    } else {
      LowestIsPinned(ms[..m], byKey, confirmedHead);
      var p :| p in ms[..m] && Pins(p, byKey, confirmedHead) && p.srcBlock == low;
      assert p in ms;
    }
  }

  /** Landed, in the dead-letter queue, or taken out of it by an operator. */
  predicate Handled(s: State, dead: map<Key, DeadLetter>, k: Key) {
    k in s.landed || k in dead || k in s.taken
  }

  /** Every message the source has below `cursor` is handled. */
  ghost predicate Covered(cfg: Config, chain: set<Pending>, s: State, cursor: nat, dead: map<Key, DeadLetter>) {
    forall p <- chain :: cfg.startBlock <= p.srcBlock < cursor ==> Handled(s, dead, p.key)
  }

  /** In memory and on disk alike, as far as there is a file; and between rollbacks the disk is never behind. */
  ghost predicate Safe(cfg: Config, chain: set<Pending>, s: State) {
    && Covered(cfg, chain, s, s.cursor, s.dead)
    && (s.savedDead.Some? ==> Covered(cfg, chain, s, s.cursor, s.savedDead.value))
    && s.cursor == s.checkpoint.UnwrapOr(cfg.startBlock)
  }

  /** The watcher returns what the source finally has in `[cursor, confirmedHead]`. */
  ghost predicate Complete(chain: set<Pending>, s: State, p: Poll, confirmedHead: nat) {
    forall m <- chain :: s.cursor <= m.srcBlock <= confirmedHead ==> m in p.messages
  }

  lemma AdvanceCovers(cfg: Config, chain: set<Pending>, s: State, p: Poll, ws: seq<Weather>, m: Pending)
    requires |p.messages| <= |ws| && Safe(cfg, chain, s) && m in chain
    requires Complete(chain, s, p, ConfirmedHead(cfg, p.head)) && !RollsBack(cfg, s, p)
    requires var (t, r) := Tick(cfg, s, p, ws); r.Some? && cfg.startBlock <= m.srcBlock < t.cursor
    ensures Handled(Tick(cfg, s, p, ws).0, Tick(cfg, s, p, ws).0.dead, m.key)
  {
    var confirmedHead := ConfirmedHead(cfg, p.head);
    var s0 := Prepared(cfg, s, p);
    var progress := RelayAll(cfg, s0, p.messages, ws, confirmedHead);
    RelayAllGrows(cfg, s0, p.messages, ws, confirmedHead);
    hide RelayAll, Prepared, ResultByKey, LowestUnresolved, CountUnresolved;
    if m.srcBlock < s.cursor {
      assert Handled(s, s.dead, m.key);
    } else {
      var byKey := ResultByKey(progress.results);
      assert m.srcBlock <= confirmedHead && m in p.messages;
      ResultsCover(cfg, s0, p.messages, ws, confirmedHead, m);
      ResolvedAreHandled(cfg, s0, p.messages, ws, confirmedHead, m.key);
      if Pins(m, byKey, confirmedHead) { LowestIsBelow(p.messages, byKey, confirmedHead, m); }
    }
  }

  /** One tick without rollback keeps the cursor safe and never moves it back. */
  lemma TickKeepsSafe(cfg: Config, chain: set<Pending>, s: State, p: Poll, ws: seq<Weather>)
    requires |p.messages| <= |ws| && Safe(cfg, chain, s) && !RollsBack(cfg, s, p)
    requires Complete(chain, s, p, ConfirmedHead(cfg, p.head))
    ensures var (t, _) := Tick(cfg, s, p, ws); Safe(cfg, chain, t) && t.cursor >= s.cursor
  {
    hide RelayAll, ResultByKey, LowestUnresolved, CountUnresolved;
    var confirmedHead := ConfirmedHead(cfg, p.head);
    var (t, r) := Tick(cfg, s, p, ws);
    RelayAllGrows(cfg, Prepared(cfg, s, p), p.messages, ws, confirmedHead);
    if r.Some? {
      forall m <- chain | cfg.startBlock <= m.srcBlock < t.cursor ensures Handled(t, t.dead, m.key) {
        AdvanceCovers(cfg, chain, s, p, ws, m);
      }
    }
  }

  // --- Whole runs -----------------------------------------------------------------------------

  /** A tick, a restart, or an operator emptying or trimming the dead-letter queue. */
  datatype Op = Ticks(poll: Poll, ws: seq<Weather>) | Restarts | Drains | Discards(key: Key)

  function Step(cfg: Config, s: State, op: Op): State {
    match op
    case Ticks(p, ws) => if |p.messages| <= |ws| then Tick(cfg, s, p, ws).0 else s
    case Restarts => Resume(cfg, s)
    case Drains => s.(dead := map[], taken := s.taken + s.dead.Keys)
    case Discards(k) => s.(dead := s.dead - {k}, taken := s.taken + {k})
  }

  function Run(cfg: Config, s: State, ops: seq<Op>): State {
    if ops == [] then s else Step(cfg, Run(cfg, s, ops[..|ops| - 1]), ops[|ops| - 1])
  }

  /** No tick rolls back, and the watcher misses nothing final. */
  ghost predicate Steady(cfg: Config, chain: set<Pending>, s: State, ops: seq<Op>) {
    ops == []
    || (var m := |ops| - 1; var here := Run(cfg, s, ops[..m]);
        && Steady(cfg, chain, s, ops[..m])
        && (ops[m].Ticks? ==> !RollsBack(cfg, here, ops[m].poll)
                              && Complete(chain, here, ops[m].poll, ConfirmedHead(cfg, ops[m].poll.head))))
  }

  /** No restart, unless the dead letters are on file. */
  predicate Survives(s: State, op: Op) {
    op.Restarts? ==> s.savedDead.Some?
  }

  lemma StepKeepsSafe(cfg: Config, chain: set<Pending>, s: State, op: Op)
    requires Safe(cfg, chain, s) && Survives(s, op)
    requires op.Ticks? ==> !RollsBack(cfg, s, op.poll) && Complete(chain, s, op.poll, ConfirmedHead(cfg, op.poll.head))
    ensures Safe(cfg, chain, Step(cfg, s, op)) && Step(cfg, s, op).cursor >= s.cursor
    ensures Step(cfg, s, op).savedDead.Some? <==> s.savedDead.Some?
  {
    StepGrows(cfg, s, op);
    if op.Ticks? && |op.poll.messages| <= |op.ws| {
      TickKeepsSafe(cfg, chain, s, op.poll, op.ws);
      hide Tick, Safe;
    }
  }

  /**
   * Over any run of such ticks, operator actions and, with the dead letters on file,
   * restarts, every message below the cursor has landed, is dead-lettered, or was taken out
   * by an operator; and the cursor, in memory and on disk, never moves back.
   */
  lemma {:induction false} CursorNeverSkips(cfg: Config, chain: set<Pending>, s: State, ops: seq<Op>, i: nat)
    requires Safe(cfg, chain, s) && Steady(cfg, chain, s, ops) && i <= |ops|
    requires s.savedDead.Some? || Restarts !in ops
    ensures Safe(cfg, chain, Run(cfg, s, ops)) && (Run(cfg, s, ops).savedDead.Some? <==> s.savedDead.Some?)
    ensures Run(cfg, s, ops[..i]).cursor <= Run(cfg, s, ops).cursor
  {
    if i == |ops| { assert ops[..i] == ops; }
    if ops != [] {
      var m := |ops| - 1;
      assert ops == ops[..m] + [ops[m]];
      CursorNeverSkips(cfg, chain, s, ops[..m], if i < m then i else m);
      StepKeepsSafe(cfg, chain, Run(cfg, s, ops[..m]), ops[m]);
      if i < |ops| { assert ops[..m][..i] == ops[..i]; }
      hide Safe, Step;
    }
  }

  lemma InitialIsSafe(cfg: Config, chain: set<Pending>, durable: bool)
    ensures Safe(cfg, chain, Initial(cfg, durable))
  {
  }

  lemma StepGrows(cfg: Config, s: State, op: Op)
    ensures var t := Step(cfg, s, op); s.landed <= t.landed && s.submitted <= t.submitted && s.taken <= t.taken
    ensures Step(cfg, s, op).savedDead.Some? <==> s.savedDead.Some?
  {
    if op.Ticks? && |op.poll.messages| <= |op.ws| && !RollsBack(cfg, s, op.poll) {
      RelayAllGrows(cfg, Prepared(cfg, s, op.poll), op.poll.messages, op.ws, ConfirmedHead(cfg, op.poll.head));
      hide RelayAll, LowestUnresolved, CountUnresolved, ResultByKey;
    }
  }

  /** Once a message has landed, no later part of any run, rollbacks and restarts included, submits it. */
  lemma {:induction false} NeverSubmittedAgain(cfg: Config, s: State, ops: seq<Op>, k: Key, i: nat)
    requires k in s.landed && |s.submitted| <= i < |Run(cfg, s, ops).submitted|
    ensures s.landed <= Run(cfg, s, ops).landed && s.submitted <= Run(cfg, s, ops).submitted
    ensures Run(cfg, s, ops).submitted[i] != k
  {
    var m := |ops| - 1;
    var here, op := Run(cfg, s, ops[..m]), ops[m];
    RunGrows(cfg, s, ops[..m]);
    StepGrows(cfg, here, op);
    if i < |here.submitted| {
      NeverSubmittedAgain(cfg, s, ops[..m], k, i);
    } else {
      TickSubmits(cfg, Prepared(cfg, here, op.poll), op.poll.messages, op.ws, ConfirmedHead(cfg, op.poll.head), i);
      hide RelayAll, LowestUnresolved, CountUnresolved, ResultByKey;
    }
  }

  lemma {:induction false} RunGrows(cfg: Config, s: State, ops: seq<Op>)
    ensures var t := Run(cfg, s, ops); s.landed <= t.landed && s.submitted <= t.submitted && s.taken <= t.taken
  {
    if ops != [] {
      RunGrows(cfg, s, ops[..|ops| - 1]);
      StepGrows(cfg, Run(cfg, s, ops[..|ops| - 1]), ops[|ops| - 1]);
      hide Step;
    }
  }

  // --- Retries end ------------------------------------------------------------------------------

  /** How many attempts a message can survive. */
  function Budget(cfg: Config): nat {
    Max(1, cfg.maxAttempts)
  }

  /** Landed, given up, or at least `n` attempts spent. */
  predicate Level(s: State, k: Key, n: nat) {
    n == 0 || k in s.landed || k in s.dead || (k in s.attempts && s.attempts[k].attempts >= n)
  }

  /** `isDelivered` answers, nothing is fatal, and the backoff is over. */
  predicate CalmFor(s: State, p: Pending, w: Weather) {
    w.check.Returns? && !w.send.Fatal? && !Deferred(s, p, w.now)
  }

  predicate Settled(s: State, k: Key) {
    k in s.dead || (k in s.landed && k !in s.attempts)
  }

  /** One attempt raises its own message's level, and settles it on the last of its budget. */
  lemma OneAttempt(cfg: Config, s: State, p: Pending, w: Weather, n: nat)
    requires CalmFor(s, p, w) && Level(s, p.key, n)
    ensures var (t, r) := RelayOne(cfg, s, p, w);
      r.Some? && Level(t, p.key, n + 1) && (n + 1 >= Budget(cfg) ==> r.value.resolved && Settled(t, p.key))
  {
    hide Pow2;
  }

  /** A turn in which nothing throws never lowers anyone's level, and touches no other retry state. */
  lemma OthersLevel(cfg: Config, s: State, p: Pending, w: Weather, k: Key, n: nat)
    requires w.check.Returns? && !w.send.Fatal?
    ensures var (t, r) := RelayOne(cfg, s, p, w);
      && (Level(s, k, n) ==> Level(t, k, n))
      && (Settled(s, k) ==> Settled(t, k) && (k == p.key ==> r.Some? && r.value.resolved))
      && (k != p.key ==> (k in s.attempts <==> k in t.attempts) && (k in s.attempts ==> t.attempts[k] == s.attempts[k]))
      && r.Some?
  {
    hide Pow2;
  }

  ghost predicate CalmTick(cfg: Config, chain: set<Pending>, s: State, p: Poll, ws: seq<Weather>, confirmedHead: nat) {
    && |p.messages| <= |ws| && !RollsBack(cfg, s, p) && ConfirmedHead(cfg, p.head) == confirmedHead
    && Complete(chain, s, p, confirmedHead)
    && forall i :: 0 <= i < |p.messages| ==> CalmFor(s, p.messages[i], ws[i])
  }

  ghost predicate CalmAll(s: State, ms: seq<Pending>, ws: seq<Weather>) {
    |ms| <= |ws| && forall i :: 0 <= i < |ms| ==> CalmFor(s, ms[i], ws[i])
  }

  /** After its turn or before it, relative to where the tick began. */
  ghost predicate Reached(cfg: Config, s: State, ms: seq<Pending>, t: State, confirmedHead: nat, k: Key, n: nat) {
    if exists p <- ms :: p.key == k && p.srcBlock <= confirmedHead
    then Level(t, k, n + 1) && (n + 1 >= Budget(cfg) ==> Settled(t, k))
    else Level(t, k, n) && (k in s.attempts <==> k in t.attempts) && (k in s.attempts ==> t.attempts[k] == s.attempts[k])
  }

  lemma {:induction false} CalmMessages(cfg: Config, s: State, ms: seq<Pending>, ws: seq<Weather>, confirmedHead: nat, k: Key, n: nat)
    requires CalmAll(s, ms, ws) && Level(s, k, n)
    ensures var p := RelayAll(cfg, s, ms, ws, confirmedHead); !p.fatal && Reached(cfg, s, ms, p.state, confirmedHead, k, n)
  {
    if ms != [] {
      var m := |ms| - 1;
      var before := RelayAll(cfg, s, ms[..m], ws, confirmedHead);
      CalmMessages(cfg, s, ms[..m], ws, confirmedHead, k, n);
      assert ms == ms[..m] + [ms[m]];
      assert CalmFor(s, ms[m], ws[m]);
      OthersLevel(cfg, before.state, ms[m], ws[m], k, n);
      OthersLevel(cfg, before.state, ms[m], ws[m], k, n + 1);
      if ms[m].srcBlock <= confirmedHead && k == ms[m].key && !(exists p <- ms[..m] :: p.key == k && p.srcBlock <= confirmedHead) {
        OneAttempt(cfg, before.state, ms[m], ws[m], n);
      }
      hide RelayOne, Level, Settled;
    }
  }

  /** On the last attempt of the budget, every result is resolved. */
  lemma {:induction false} LastResults(cfg: Config, s: State, ms: seq<Pending>, ws: seq<Weather>, confirmedHead: nat, n: nat)
    requires CalmAll(s, ms, ws) && n + 1 >= Budget(cfg)
    requires forall i :: 0 <= i < |ms| && ms[i].srcBlock <= confirmedHead ==> Level(s, ms[i].key, n)
    ensures forall r <- RelayAll(cfg, s, ms, ws, confirmedHead).results :: r.resolved
  {
    if ms != [] {
      var m := |ms| - 1;
      var k := ms[m].key;
      var before := RelayAll(cfg, s, ms[..m], ws, confirmedHead);
      LastResults(cfg, s, ms[..m], ws, confirmedHead, n);
      if ms[m].srcBlock <= confirmedHead {
        CalmMessages(cfg, s, ms[..m], ws, confirmedHead, k, n);
        assert CalmFor(s, ms[m], ws[m]);
        OthersLevel(cfg, before.state, ms[m], ws[m], k, n);
        if !(exists p <- ms[..m] :: p.key == k && p.srcBlock <= confirmedHead) {
          OneAttempt(cfg, before.state, ms[m], ws[m], n);
        }
        hide RelayOne, Level, Settled;
      }
    }
  }

  lemma {:induction false} LastOfEach(results: seq<RelayResult>, k: Key)
    requires k in ResultByKey(results)
    ensures ResultByKey(results)[k] in results
  {
    var m := |results| - 1;
    if results[m].key != k { LastOfEach(results[..m], k); }
  }

  lemma {:induction false} NothingPins(ms: seq<Pending>, results: seq<RelayResult>, confirmedHead: nat)
    requires forall r <- results :: r.resolved
    ensures LowestUnresolved(ms, ResultByKey(results), confirmedHead).None?
  {
    if LowestUnresolved(ms, ResultByKey(results), confirmedHead).Some? {
      LowestIsPinned(ms, ResultByKey(results), confirmedHead);
      var p :| p in ms && Pins(p, ResultByKey(results), confirmedHead);
      LastOfEach(results, p.key);
    }
  }

  datatype Round = Round(poll: Poll, ws: seq<Weather>)

  function Rounds(cfg: Config, s: State, rounds: seq<Round>): State {
    if rounds == [] then s
    else
      var r := rounds[|rounds| - 1];
      var here := Rounds(cfg, s, rounds[..|rounds| - 1]);
      if |r.poll.messages| <= |r.ws| then Tick(cfg, here, r.poll, r.ws).0 else here
  }

  ghost predicate AllCalm(cfg: Config, chain: set<Pending>, s: State, rounds: seq<Round>, confirmedHead: nat) {
    rounds == []
    || (var m := |rounds| - 1;
        && AllCalm(cfg, chain, s, rounds[..m], confirmedHead)
        && CalmTick(cfg, chain, Rounds(cfg, s, rounds[..m]), rounds[m].poll, rounds[m].ws, confirmedHead))
  }

  lemma PruneKeepsObserved(cfg: Config, s: State, p: Poll, ws: seq<Weather>)
    requires |p.messages| <= |ws| && forall i :: 0 <= i < |p.messages| ==> CalmFor(s, p.messages[i], ws[i])
    ensures CalmAll(Prepared(cfg, s, p), p.messages, ws)
    ensures forall k, n :: k in Keys(p.messages) && Level(s, k, n) ==> Level(Prepared(cfg, s, p), k, n)
  {
  }

  /** A calm tick: every message still observed spends one more attempt, or is done with. */
  lemma CalmTickRaises(cfg: Config, chain: set<Pending>, s: State, p: Poll, ws: seq<Weather>, confirmedHead: nat, m: Pending, n: nat)
    requires CalmTick(cfg, chain, s, p, ws, confirmedHead) && m in chain && s.cursor <= m.srcBlock <= confirmedHead
    requires Level(s, m.key, n)
    ensures Level(Tick(cfg, s, p, ws).0, m.key, n + 1)
  {
    hide RelayAll, Prepared, CalmAll, LowestUnresolved, CountUnresolved, ResultByKey;
    var s0 := Prepared(cfg, s, p);
    assert m in p.messages && m.key in Keys(p.messages);
    PruneKeepsObserved(cfg, s, p, ws);
    CalmMessages(cfg, s0, p.messages, ws, confirmedHead, m.key, n);
  }

  lemma CalmTickMoves(cfg: Config, chain: set<Pending>, s: State, p: Poll, ws: seq<Weather>, confirmedHead: nat)
    requires CalmTick(cfg, chain, s, p, ws, confirmedHead)
    ensures Tick(cfg, s, p, ws).0.cursor >= s.cursor
    ensures Tick(cfg, s, p, ws).0.cursor <= Max(s.cursor, confirmedHead + 1)
  {
    hide RelayAll, LowestUnresolved, CountUnresolved, ResultByKey, CalmFor;
    RelayAllGrows(cfg, Prepared(cfg, s, p), p.messages, ws, confirmedHead);
  }

  /** `n` calm ticks on a standing head spend `n` attempts of every message still held. */
  lemma {:induction false} EveryTickCounts(cfg: Config, chain: set<Pending>, s: State, rounds: seq<Round>, confirmedHead: nat, m: Pending)
    requires AllCalm(cfg, chain, s, rounds, confirmedHead) && m in chain
    ensures var t := Rounds(cfg, s, rounds);
      && s.cursor <= t.cursor <= Max(s.cursor, confirmedHead + 1)
      && (t.cursor <= m.srcBlock <= confirmedHead ==> Level(t, m.key, |rounds|))
  {
    if rounds != [] {
      var n := |rounds| - 1;
      var here, r := Rounds(cfg, s, rounds[..n]), rounds[n];
      EveryTickCounts(cfg, chain, s, rounds[..n], confirmedHead, m);
      CalmTickMoves(cfg, chain, here, r.poll, r.ws, confirmedHead);
      if Rounds(cfg, s, rounds).cursor <= m.srcBlock <= confirmedHead {
        CalmTickRaises(cfg, chain, here, r.poll, r.ws, confirmedHead, m, n);
      }
      hide Tick, CalmTick, Level;
    }
  }

  /** The watcher invents nothing and returns nothing from below the cursor. */
  ghost predicate Sound(chain: set<Pending>, s: State, p: Poll) {
    forall m <- p.messages :: m in chain && m.srcBlock >= s.cursor
  }

  /**
   * Whatever `deliver` does short of a fatal error, after as many calm ticks as the retry
   * budget the cursor has passed the confirmed head.
   */
  lemma {:induction false} RetriesEnd(cfg: Config, chain: set<Pending>, s: State, rounds: seq<Round>, confirmedHead: nat)
    requires AllCalm(cfg, chain, s, rounds, confirmedHead) && |rounds| == Budget(cfg)
    requires var n := |rounds| - 1; Sound(chain, Rounds(cfg, s, rounds[..n]), rounds[n].poll)
    ensures Rounds(cfg, s, rounds).cursor == Max(s.cursor, confirmedHead + 1)
  {
    var n := |rounds| - 1;
    var here, r := Rounds(cfg, s, rounds[..n]), rounds[n];
    var s0 := Prepared(cfg, here, r.poll);
    PruneKeepsObserved(cfg, here, r.poll, r.ws);
    hide Level;
    forall i | 0 <= i < |r.poll.messages| && r.poll.messages[i].srcBlock <= confirmedHead ensures Level(s0, r.poll.messages[i].key, n) {
      var m := r.poll.messages[i];
      assert m in chain && m.key in Keys(r.poll.messages);
      EveryTickCounts(cfg, chain, s, rounds[..n], confirmedHead, m);
    }
    LastResults(cfg, s0, r.poll.messages, r.ws, confirmedHead, n);
    LastTick(cfg, chain, here, r.poll, r.ws, confirmedHead);
    CursorInBounds(cfg, chain, s, rounds[..n], confirmedHead);
    hide RelayAll, Tick, CalmTick, Prepared, CalmAll;
  }

  lemma {:induction false} CursorInBounds(cfg: Config, chain: set<Pending>, s: State, rounds: seq<Round>, confirmedHead: nat)
    requires AllCalm(cfg, chain, s, rounds, confirmedHead)
    ensures s.cursor <= Rounds(cfg, s, rounds).cursor <= Max(s.cursor, confirmedHead + 1)
  {
    if rounds != [] {
      var n := |rounds| - 1;
      CursorInBounds(cfg, chain, s, rounds[..n], confirmedHead);
      CalmTickMoves(cfg, chain, Rounds(cfg, s, rounds[..n]), rounds[n].poll, rounds[n].ws, confirmedHead);
      hide Tick, CalmTick;
    }
  }

  lemma LastTick(cfg: Config, chain: set<Pending>, s: State, p: Poll, ws: seq<Weather>, confirmedHead: nat)
    requires CalmTick(cfg, chain, s, p, ws, confirmedHead)
    requires forall r <- RelayAll(cfg, Prepared(cfg, s, p), p.messages, ws, confirmedHead).results :: r.resolved
    ensures Tick(cfg, s, p, ws).0.cursor == Max(s.cursor, confirmedHead + 1)
  {
    hide RelayAll, LowestUnresolved, CountUnresolved, ResultByKey, CalmFor, CalmAll;
    var s0 := Prepared(cfg, s, p);
    var progress := RelayAll(cfg, s0, p.messages, ws, confirmedHead);
    RelayAllGrows(cfg, s0, p.messages, ws, confirmedHead);
    PruneKeepsObserved(cfg, s, p, ws);
    CalmMessages(cfg, s0, p.messages, ws, confirmedHead, Key(0, 0, [], FillInstruction, 0), 0);
    NothingPins(p.messages, progress.results, confirmedHead);
  }

  // --- Where the promises stop --------------------------------------------------------------------

  /**
   * A rollback aims at the head less the detected depth, which is not always a step back. It keeps the
   * cursor safe, whatever the source holds, exactly if it does not move it forward.
   */
  lemma RollbackSafeIffBackward(cfg: Config, s: State, p: Poll, unseen: Pending)
    requires RollsBack(cfg, s, p) && unseen.srcBlock == s.cursor >= cfg.startBlock
    requires !Handled(s, s.dead, unseen.key)
    ensures Covered(cfg, {unseen}, s, s.cursor, s.dead)
    ensures var t := RolledBack(cfg, s, p);
      Covered(cfg, {unseen}, t, t.cursor, t.dead) <==> RollbackTarget(cfg, s, p) <= s.cursor
  {
  }

  /**
   * A rollback puts the cursor at or below the first block a fork replaced, so that all of
   * them are polled again, if and only if every link of the window above that block is broken.
   */
  lemma RollbackReachesForkIff(cfg: Config, s: State, p: Poll, chain: Chain, k: nat)
    requires p.tip.Some? && p.head > 0 && p.tip.value.parentHash == chain(p.head - 1).hash
    requires Replaced(s.window, chain, p.head, k) && cfg.startBlock <= p.head - k
    ensures RollbackTarget(cfg, s, p) <= p.head - k <==> BrokenAbove(s.window, cfg.startBlock, p.head, k)
  {
    hide DetectReorg, Replaced, BrokenAbove;
    ReachesForkIff(s.window, cfg.startBlock, chain, p.head, k);
  }

  /** The reorg the loop only logs, as too deep to roll back. */
  predicate DeepReorg(cfg: Config, s: State, p: Poll) {
    ReorgDepth(cfg, s, p) > cfg.confirmations && !(p.head == s.cursor && p.messages != [])
  }

  /** A reorg that is seen is answered by a rollback or, if it counts as too deep, only logged. */
  lemma RollsBackUnlessDeep(cfg: Config, s: State, p: Poll)
    ensures ReorgDepth(cfg, s, p) > 0 ==> (RollsBack(cfg, s, p) <==> !DeepReorg(cfg, s, p))
    ensures ReorgDepth(cfg, s, p) == 0 ==> !RollsBack(cfg, s, p) && !DeepReorg(cfg, s, p)
  {
    hide DetectReorg;
  }

  /** The alarm takes as many broken links in a row as there are confirmations, whatever the fork replaced. */
  lemma DeepReorgIff(cfg: Config, s: State, p: Poll)
    requires ReorgDepth(cfg, s, p) > 0
    ensures DeepReorg(cfg, s, p) <==>
      BrokenAbove(s.window, cfg.startBlock, p.head, cfg.confirmations + 1) && !(p.head == s.cursor && p.messages != [])
  {
    hide DetectReorg, BrokenAbove;
    DeeperIff(s.window, cfg.startBlock, p.head, p.tip.value.parentHash, cfg.confirmations + 1);
  }

  /** So with a confirmation to wait for and a window recorded from one chain it never sounds. */
  lemma {:induction false} NoDeepReorgOnOneChain(cfg: Config, s: State, p: Poll, first: Chain)
    requires OnChain(s.window, first) && IsChain(first) && cfg.confirmations > 0
    ensures !DeepReorg(cfg, s, p)
  {
    hide DetectReorg, OnChain, IsChain;
    OnChainIsLinked(s.window, first);
    if p.tip.Some? { LinkedSeesDepthOne(s.window, cfg.startBlock, p.head, p.tip.value.parentHash); }
    hide Linked, FindBlock;
  }

  lemma BackwardKeepsCovered(cfg: Config, chain: set<Pending>, s: State, p: Poll)
    requires RollsBack(cfg, s, p) && Covered(cfg, chain, s, s.cursor, s.dead)
    requires RollbackTarget(cfg, s, p) <= s.cursor
    ensures var t := RolledBack(cfg, s, p); Covered(cfg, chain, t, t.cursor, t.dead)
  {
  }

  /** Each poll starts at the cursor and returns what the source has. */
  ghost predicate PollsFromCursor(cfg: Config, chain: set<Pending>, s: State, ops: seq<Op>) {
    ops == []
    || (var m := |ops| - 1;
        && PollsFromCursor(cfg, chain, s, ops[..m])
        && (ops[m].Ticks? ==> Sound(chain, Run(cfg, s, ops[..m]), ops[m].poll)))
  }

  /** The cursor in memory is the one on disk. */
  predicate OnDisk(cfg: Config, s: State) {
    s.cursor == s.checkpoint.UnwrapOr(cfg.startBlock)
  }

  lemma StepMovesOn(cfg: Config, s: State, op: Op)
    requires OnDisk(cfg, s) && (op.Ticks? ==> !RollsBack(cfg, s, op.poll))
    ensures OnDisk(cfg, Step(cfg, s, op)) && Step(cfg, s, op).cursor >= s.cursor
  {
    if op.Ticks? && |op.poll.messages| <= |op.ws| {
      RelayAllGrows(cfg, Prepared(cfg, s, op.poll), op.poll.messages, op.ws, ConfirmedHead(cfg, op.poll.head));
      hide RelayAll, LowestUnresolved, CountUnresolved, ResultByKey;
    }
  }

  /** Whatever the stores, runs without rollback never move the cursor back. */
  lemma {:induction false} CursorMovesOn(cfg: Config, chain: set<Pending>, s: State, ops: seq<Op>)
    requires OnDisk(cfg, s) && Steady(cfg, chain, s, ops)
    ensures OnDisk(cfg, Run(cfg, s, ops)) && Run(cfg, s, ops).cursor >= s.cursor
  {
    if ops != [] {
      CursorMovesOn(cfg, chain, s, ops[..|ops| - 1]);
      StepMovesOn(cfg, Run(cfg, s, ops[..|ops| - 1]), ops[|ops| - 1]);
      hide OnDisk, Step;
    }
  }

  /**
   * Draining the dead-letter queue does not get a message retried once the cursor has
   * passed its block: no run without a rollback ever submits it again.
   */
  lemma {:induction false} DrainedIsNeverRetried(cfg: Config, chain: set<Pending>, s: State, ops: seq<Op>, k: Key)
    requires OnDisk(cfg, s) && Steady(cfg, chain, s, ops) && PollsFromCursor(cfg, chain, s, ops)
    requires forall m <- chain :: m.key == k ==> m.srcBlock < s.cursor
    ensures forall i :: |s.submitted| <= i < |Run(cfg, s, ops).submitted| ==> Run(cfg, s, ops).submitted[i] != k
    ensures s.submitted <= Run(cfg, s, ops).submitted
  {
    if ops != [] {
      var m := |ops| - 1;
      var here, op := Run(cfg, s, ops[..m]), ops[m];
      DrainedIsNeverRetried(cfg, chain, s, ops[..m], k);
      CursorMovesOn(cfg, chain, s, ops[..m]);
      StepGrows(cfg, here, op);
      forall i | |s.submitted| <= i < |Run(cfg, s, ops).submitted| ensures Run(cfg, s, ops).submitted[i] != k {
        if i >= |here.submitted| {
          TickSubmits(cfg, Prepared(cfg, here, op.poll), op.poll.messages, op.ws, ConfirmedHead(cfg, op.poll.head), i);
        }
      }
      hide RelayAll, LowestUnresolved, CountUnresolved, ResultByKey, OnDisk;
    }
  }

  /** Somebody else's turn leaves a message alone, unless it lands by other ways. */
  lemma OthersLeave(cfg: Config, s: State, p: Pending, w: Weather, k: Key)
    requires k != p.key && k !in w.lands
    ensures var (t, _) := RelayOne(cfg, s, p, w); SameFor(s, t, k)
  {
    hide Pow2;
  }

  predicate SameFor(s: State, t: State, k: Key) {
    && (k in t.landed <==> k in s.landed) && (k in t.dead <==> k in s.dead)
    && (k in t.attempts <==> k in s.attempts) && (k in s.attempts ==> t.attempts[k] == s.attempts[k])
  }

  predicate HasTurn(ms: seq<Pending>, confirmedHead: nat, k: Key) {
    exists p <- ms :: p.key == k && p.srcBlock <= confirmedHead
  }

  lemma {:induction false} UntouchedBefore(cfg: Config, s: State, ms: seq<Pending>, ws: seq<Weather>, confirmedHead: nat, k: Key)
    requires |ms| <= |ws| && !HasTurn(ms, confirmedHead, k) && forall w <- ws :: k !in w.lands
    ensures SameFor(s, RelayAll(cfg, s, ms, ws, confirmedHead).state, k)
  {
    if ms != [] {
      var m := |ms| - 1;
      assert ms == ms[..m] + [ms[m]] && ms[m] in ms && ws[m] in ws;
      UntouchedBefore(cfg, s, ms[..m], ws, confirmedHead, k);
      if ms[m].srcBlock <= confirmedHead {
        OthersLeave(cfg, RelayAll(cfg, s, ms[..m], ws, confirmedHead).state, ms[m], ws[m], k);
      }
      hide RelayOne;
    }
  }

  /** On its turn a calm message that is missing is submitted. */
  lemma MissingIsSubmitted(cfg: Config, s: State, p: Pending, w: Weather)
    requires w.check.Returns? && !Deferred(s, p, w.now)
    requires p.key !in s.landed && p.key !in w.lands && p.key !in s.dead
    ensures RelayOne(cfg, s, p, w).0.submitted == s.submitted + [p.key]
  {
    hide Pow2;
  }

  lemma {:induction false} TurnComes(cfg: Config, s: State, ms: seq<Pending>, ws: seq<Weather>, confirmedHead: nat, k: Key)
    requires CalmAll(s, ms, ws) && HasTurn(ms, confirmedHead, k)
    requires k !in s.landed && k !in s.dead && forall w <- ws :: k !in w.lands
    ensures var t := RelayAll(cfg, s, ms, ws, confirmedHead).state; s.submitted <= t.submitted && k in t.submitted[|s.submitted|..]
  {
    hide RelayOne;
    var m := |ms| - 1;
    var before := RelayAll(cfg, s, ms[..m], ws, confirmedHead);
    var t := RelayAll(cfg, s, ms, ws, confirmedHead).state;
    assert ms == ms[..m] + [ms[m]];
    assert CalmFor(s, ms[m], ws[m]) && ws[m] in ws;
    RelayAllGrows(cfg, s, ms[..m], ws, confirmedHead);
    RelayAllGrows(cfg, s, ms, ws, confirmedHead);
    RelayOneGrows(cfg, before.state, ms[m], ws[m]);
    CalmMessages(cfg, s, ms[..m], ws, confirmedHead, k, 0);
    if HasTurn(ms[..m], confirmedHead, k) {
      TurnComes(cfg, s, ms[..m], ws, confirmedHead, k);
      Longer(s.submitted, before.state.submitted, t.submitted, k);
    } else {
      UntouchedBefore(cfg, s, ms[..m], ws, confirmedHead, k);
      MissingIsSubmitted(cfg, before.state, ms[m], ws[m]);
      assert t.submitted[|t.submitted| - 1] == k;
    }
  }

  lemma Longer(a: seq<Key>, b: seq<Key>, c: seq<Key>, k: Key)
    requires a <= b <= c && k in b[|a|..]
    ensures k in c[|a|..]
  {
    var i :| 0 <= i < |b[|a|..]| && b[|a|..][i] == k;
    assert c[|a|..][i] == k;
  }

  lemma TickSubmitted(cfg: Config, s: State, p: Poll, ws: seq<Weather>)
    requires |p.messages| <= |ws| && !RollsBack(cfg, s, p)
    ensures Tick(cfg, s, p, ws).0.submitted == RelayAll(cfg, Prepared(cfg, s, p), p.messages, ws, ConfirmedHead(cfg, p.head)).state.submitted
  {
    hide RelayAll, LowestUnresolved, CountUnresolved, ResultByKey, Prepared;
  }

  lemma PreparedSame(cfg: Config, s: State, p: Poll)
    ensures var t := Prepared(cfg, s, p); t.landed == s.landed && t.dead == s.dead && t.submitted == s.submitted
  {
    hide RecordAll;
  }

  /**
   * What the runbook promises of a drained message, and exactly when it holds: a calm tick
   * submits it if and only if the cursor has not passed its block.
   */
  lemma {:induction false} DrainedIsRetriedIffAtCursor(cfg: Config, chain: set<Pending>, s: State, p: Poll, ws: seq<Weather>, m: Pending)
    requires m in chain && m.key in s.dead && m.key !in s.landed && forall c <- chain :: c.key == m.key ==> c == m
    requires m.srcBlock <= ConfirmedHead(cfg, p.head) && forall w <- ws :: m.key !in w.lands
    requires var d := Step(cfg, s, Drains); CalmTick(cfg, chain, d, p, ws, ConfirmedHead(cfg, p.head)) && Sound(chain, d, p)
    ensures var t := Tick(cfg, Step(cfg, s, Drains), p, ws).0;
      && s.submitted <= t.submitted
      && (m.key in t.submitted[|s.submitted|..] <==> m.srcBlock >= s.cursor)
  {
    var d := Step(cfg, s, Drains);
    var confirmedHead := ConfirmedHead(cfg, p.head);
    var s0 := Prepared(cfg, d, p);
    var progress := RelayAll(cfg, s0, p.messages, ws, confirmedHead);
    var t := Tick(cfg, d, p, ws).0;
    hide RelayAll, CalmFor, Tick, Prepared, RollsBack;
    RelayAllGrows(cfg, s0, p.messages, ws, confirmedHead);
    PruneKeepsObserved(cfg, d, p, ws);
    TickSubmitted(cfg, d, p, ws);
    PreparedSame(cfg, d, p);
    if m.srcBlock >= s.cursor {
      assert m in p.messages;
      assert HasTurn(p.messages, confirmedHead, m.key);
      TurnComes(cfg, s0, p.messages, ws, confirmedHead, m.key);
    }
    if m.key in t.submitted[|s.submitted|..] {
      var i :| 0 <= i < |t.submitted[|s.submitted|..]| && t.submitted[|s.submitted|..][i] == m.key;
      TickSubmits(cfg, s0, p.messages, ws, confirmedHead, |s.submitted| + i);
      var q :| q in p.messages && q.key == m.key && q.srcBlock <= confirmedHead;
      assert q in chain && q == m;
    }
  }

  // --- Restarts and the dead-letter file ------------------------------------------------------

  /** A restart keeps every message below the cursor accounted for if and only if none depended on a queue without a file. */
  lemma RestartSafeIffFiled(cfg: Config, chain: set<Pending>, s: State)
    requires Safe(cfg, chain, s)
    ensures Resume(cfg, s).cursor == s.cursor
    ensures Safe(cfg, chain, Resume(cfg, s)) <==> s.savedDead.Some? || Covered(cfg, chain, s, s.cursor, map[])
  {
  }
}
