/**
 * The relayer's retry budget from below: nothing is given up before the whole budget is
 * spent, every failure short of it keeps its message pinned and waits twice as long as the
 * one before, and only confirmed messages are sent at all.
 */
module RelayBudget {
  import opened Prelude
  import opened Relaying

  // --- One turn -------------------------------------------------------------------------

  /** How long the `n`-th failure waits. */
  function Wait(cfg: Config, n: nat): nat
    requires n > 0
  {
    if n == 1 then cfg.baseBackoffMs else 2 * Wait(cfg, n - 1)
  }

  lemma {:induction false} WaitIsPower(cfg: Config, n: nat)
    requires n > 0
    ensures Wait(cfg, n) == cfg.baseBackoffMs * Pow2(n - 1)
  {
    if n > 1 { WaitIsPower(cfg, n - 1); }
  }

  function Attempts(s: State, k: Key): nat {
    if k in s.attempts then s.attempts[k].attempts else 0
  }

  /** This turn makes an attempt, and it fails. */
  predicate FailsNow(s: State, p: Pending, w: Weather) {
    && p.key !in s.dead && !Deferred(s, p, w.now)
    && (w.check.Throws? || (w.check.Returns? && p.key !in s.landed && p.key !in w.lands && w.send.Throws?))
  }

  /**
   * A failed attempt, exactly: short of the budget it is counted, unresolved, kept out of the
   * dead letters and deferred until its wait is over; on the last it is a dead letter.
   */
  lemma FailureIsExact(cfg: Config, s: State, p: Pending, w: Weather, now: nat)
    requires FailsNow(s, p, w)
    ensures var (t, r) := RelayOne(cfg, s, p, w); var n := Attempts(s, p.key) + 1;
      && r == Some(RelayResult(p.key, false, n >= cfg.maxAttempts, false))
      && (n < cfg.maxAttempts ==> t.dead == s.dead && Attempts(t, p.key) == n
                                  && (Deferred(t, p, now) <==> now < w.failedAt + Wait(cfg, n)))
      && (n >= cfg.maxAttempts ==> t.dead == s.dead[p.key := DeadLetter(p, n)] && p.key !in t.attempts)
  {
    hide Pow2, Wait;
    WaitIsPower(cfg, Attempts(s, p.key) + 1);
  }

  /** Only a failed attempt on the last of the budget makes a dead letter, and an old one stays as it is. */
  lemma GivesUpOnlySpent(cfg: Config, s: State, p: Pending, w: Weather, k: Key)
    ensures var (t, _) := RelayOne(cfg, s, p, w);
      && (k in s.dead ==> k in t.dead && t.dead[k] == s.dead[k])
      && (k in t.dead && k !in s.dead ==> k == p.key && FailsNow(s, p, w) && t.dead[k].attempts >= cfg.maxAttempts)
  {
    hide Pow2;
  }

  /** Every turn is counted once, under what became of it, or not at all if it made no attempt. */
  lemma TurnIsCounted(cfg: Config, s: State, p: Pending, w: Weather)
    ensures var (t, r) := RelayOne(cfg, s, p, w); var a, b := s.metrics, t.metrics;
      if r.None? || p.key in s.dead || Deferred(s, p, w.now) then b == a
      else if r.value.delivered then b == a.(delivered := a.delivered + 1)
      else if r.value.alreadyDelivered then b == a.(alreadyDelivered := a.alreadyDelivered + 1)
      else
        var deepest := Max(a.maxRetryDepth, Attempts(s, p.key) + 1);
        if r.value.resolved then b == a.(deadLettered := a.deadLettered + 1, maxRetryDepth := deepest)
        else b == a.(failed := a.failed + 1, maxRetryDepth := deepest)
  {
    hide Pow2;
  }

  // --- Whole runs -------------------------------------------------------------------------

  ghost predicate AllSpent(cfg: Config, dead: map<Key, DeadLetter>) {
    forall k <- dead :: dead[k].attempts >= cfg.maxAttempts
  }

  lemma {:induction false} MessagesKeepSpent(cfg: Config, s: State, ms: seq<Pending>, ws: seq<Weather>, confirmedHead: nat)
    requires |ms| <= |ws| && AllSpent(cfg, s.dead)
    ensures AllSpent(cfg, RelayAll(cfg, s, ms, ws, confirmedHead).state.dead)
  {
    hide RelayOne;
    if ms != [] {
      var m := |ms| - 1;
      MessagesKeepSpent(cfg, s, ms[..m], ws, confirmedHead);
      var before := RelayAll(cfg, s, ms[..m], ws, confirmedHead);
      forall k | k in RelayOne(cfg, before.state, ms[m], ws[m]).0.dead
        ensures RelayOne(cfg, before.state, ms[m], ws[m]).0.dead[k].attempts >= cfg.maxAttempts
      {
        GivesUpOnlySpent(cfg, before.state, ms[m], ws[m], k);
      }
    }
  }

  ghost predicate Spent(cfg: Config, s: State) {
    AllSpent(cfg, s.dead) && (s.savedDead.Some? ==> AllSpent(cfg, s.savedDead.value))
  }

  lemma StepKeepsSpent(cfg: Config, s: State, op: Op)
    requires Spent(cfg, s)
    ensures Spent(cfg, Step(cfg, s, op))
  {
    if op.Ticks? && |op.poll.messages| <= |op.ws| {
      MessagesKeepSpent(cfg, Prepared(cfg, s, op.poll), op.poll.messages, op.ws, ConfirmedHead(cfg, op.poll.head));
      RelayAllGrows(cfg, Prepared(cfg, s, op.poll), op.poll.messages, op.ws, ConfirmedHead(cfg, op.poll.head));
      hide RelayAll, LowestUnresolved, CountUnresolved, ResultByKey;
    }
  }

  /** In every run, rollbacks and restarts included, every dead letter, in memory or on file, has spent the whole budget. */
  lemma {:induction false} DeadLettersAreSpent(cfg: Config, durable: bool, ops: seq<Op>)
    ensures Spent(cfg, Run(cfg, Initial(cfg, durable), ops))
  {
    hide Step;
    if ops != [] {
      DeadLettersAreSpent(cfg, durable, ops[..|ops| - 1]);
      StepKeepsSpent(cfg, Run(cfg, Initial(cfg, durable), ops[..|ops| - 1]), ops[|ops| - 1]);
    }
  }

  /** A message whose last result is unresolved holds the cursor at or below its block. */
  lemma UnresolvedHoldsCursor(cfg: Config, s: State, p: Poll, ws: seq<Weather>, m: Pending)
    requires |p.messages| <= |ws| && !RollsBack(cfg, s, p) && Tick(cfg, s, p, ws).1.Some?
    requires m in p.messages && m.srcBlock <= ConfirmedHead(cfg, p.head) && s.cursor <= m.srcBlock
    requires var byKey := ResultByKey(Tick(cfg, s, p, ws).1.value); m.key in byKey && !byKey[m.key].resolved
    ensures Tick(cfg, s, p, ws).0.cursor <= m.srcBlock
  {
    hide RelayAll, ResultByKey, LowestUnresolved, CountUnresolved, Prepared;
    var ch := ConfirmedHead(cfg, p.head);
    var progress := RelayAll(cfg, Prepared(cfg, s, p), p.messages, ws, ch);
    RelayAllGrows(cfg, Prepared(cfg, s, p), p.messages, ws, ch);
    PreparedKeepsCursor(cfg, s, p);
    LowestIsBelow(p.messages, ResultByKey(progress.results), ch, m);
  }

  lemma PreparedKeepsCursor(cfg: Config, s: State, p: Poll)
    ensures Prepared(cfg, s, p).cursor == s.cursor
  {
    hide Reorg.RecordAll;
  }

  /**
   * Nothing is sent before it has its confirmations; only a message of block zero may be,
   * while the chain is still shorter than that.
   */
  lemma OnlyConfirmedIsSent(cfg: Config, s: State, p: Poll, ws: seq<Weather>, i: nat)
    requires |p.messages| <= |ws| && |s.submitted| <= i < |Tick(cfg, s, p, ws).0.submitted|
    ensures exists m <- p.messages :: m.key == Tick(cfg, s, p, ws).0.submitted[i] && (m.srcBlock + cfg.confirmations <= p.head || m.srcBlock == 0)
  {
    hide RelayAll, LowestUnresolved, CountUnresolved, ResultByKey, Prepared;
    var ch := ConfirmedHead(cfg, p.head);
    RollbackSendsNothing(cfg, s, p);
    PreparedSends(cfg, s, p);
    TickSubmits(cfg, Prepared(cfg, s, p), p.messages, ws, ch, i);
    var m :| m in p.messages && m.key == Tick(cfg, s, p, ws).0.submitted[i] && m.srcBlock <= ch;
    assert m.srcBlock + cfg.confirmations <= p.head || m.srcBlock == 0;
  }

  lemma PreparedSends(cfg: Config, s: State, p: Poll)
    ensures Prepared(cfg, s, p).submitted == s.submitted
  {
    hide Reorg.RecordAll;
  }

  lemma RollbackSendsNothing(cfg: Config, s: State, p: Poll)
    ensures RolledBack(cfg, s, p).submitted == s.submitted
  {
    hide Reorg.RecordAll;
  }

  /** A message a poll no longer shows has its whole budget again. */
  lemma UnobservedStartsAfresh(cfg: Config, s: State, p: Poll, k: Key)
    ensures var t := Prepared(cfg, s, p);
      && (k in t.attempts <==> k in s.attempts && exists i :: 0 <= i < |p.messages| && p.messages[i].key == k)
      && (k in t.attempts ==> t.attempts[k] == s.attempts[k])
  {
    hide Reorg.RecordAll;
  }

  /** A new process goes on from its checkpoint, with whole budgets and what is on file. */
  lemma RestartForgets(cfg: Config, s: State)
    ensures var t := Resume(cfg, s);
      && t.attempts == map[] && t.window == [] && t.landed == s.landed && t.submitted == s.submitted
      && t.cursor == (if s.checkpoint.Some? then s.checkpoint.value else cfg.startBlock)
      && t.dead == (if s.savedDead.Some? then s.savedDead.value else map[])
  {
  }

  /** The tick reports as many unresolved messages as its results hold. */
  lemma {:induction false} UnresolvedAreCounted(results: seq<RelayResult>)
    ensures CountUnresolved(results) == 0 <==> forall r <- results :: r.resolved
    ensures CountUnresolved(results) <= |results|
  {
    if results != [] {
      var m := |results| - 1;
      assert results == results[..m] + [results[m]];
      UnresolvedAreCounted(results[..m]);
    }
  }
}
