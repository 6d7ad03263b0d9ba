/**
 * Reachable runs of the relayer in which a promise of its documentation fails: concrete
 * inputs for the conditions that module Relaying states exactly.
 */
module RelayWitnesses {
  import opened Prelude
  import opened Reorg
  import opened Relaying

  /** One attempt per message, no confirmations to wait for. */
  const ONE_TRY := Config(0, 0, 1, 1)

  /** The first message of the chain, in block zero. */
  const FIRST := Pending(Key(1, 2, [], FillInstruction, 1), 0)

  /** A tick in which `deliver` throws and nothing lands. */
  function FailingTick(head: nat, tip: Option<Tip>): Op {
    Ticks(Poll([FIRST], head, tip, []), [Weather(0, {}, Returns, Throws, false, 0)])
  }

  lemma FailingTurn(cfg: Config, s: State, confirmedHead: nat, w: Weather)
    requires w == Weather(0, {}, Returns, Throws, false, 0)
    requires FIRST.key !in s.landed && FIRST.key !in s.dead && FIRST.key !in s.attempts
    ensures var r := Failed(cfg, Submit(s, FIRST, w), FIRST, 0);
      RelayAll(cfg, s, [FIRST], [w], confirmedHead) == Progress(r.0, [r.1], false)
  {
    assert [FIRST][..0] == [];
    assert s.landed + w.lands == s.landed;
  }

  /** A failing tick over the one message, without a rollback. */
  lemma {:induction false} OneFailure(cfg: Config, s: State, p: Poll, ws: seq<Weather>)
    requires p.messages == [FIRST] && ws == [Weather(0, {}, Returns, Throws, false, 0)] && !RollsBack(cfg, s, p)
    requires FIRST.key !in s.landed && FIRST.key !in s.dead && s.attempts == map[]
    ensures var r := Failed(cfg, Submit(Prepared(cfg, s, p), FIRST, ws[0]), FIRST, 0); var t := Tick(cfg, s, p, ws).0;
      && t.cursor == Max(s.cursor, NextCursor(ConfirmedHead(cfg, p.head), if r.1.resolved then None else Some(0)))
      && t == r.0.(cursor := t.cursor, checkpoint := Some(t.cursor), metrics := t.metrics,
                   savedDead := if s.savedDead.Some? then Some(r.0.dead) else None)
  {
    hide RecordAll;
    var s0 := Prepared(cfg, s, p);
    FailingTurn(cfg, s0, ConfirmedHead(cfg, p.head), ws[0]);
    var r := Failed(cfg, Submit(s0, FIRST, ws[0]), FIRST, 0);
    ResultOfOne(r.1, ConfirmedHead(cfg, p.head));
    hide RelayAll, LowestUnresolved, ResultByKey, CountUnresolved, Pow2;
  }

  lemma ResultOfOne(r: RelayResult, confirmedHead: nat)
    requires r.key == FIRST.key
    ensures LowestUnresolved([FIRST], ResultByKey([r]), confirmedHead) == if r.resolved then None else Some(0)
  {
    assert [FIRST][..0] == [] && [r][..0] == [];
    assert ResultByKey([r]) == map[r.key := r];
  }

  /** After one failing tick the message is dead-lettered and the cursor has passed it. */
  lemma {:induction false} FirstDies(s: State, durable: bool, op: Op)
    requires s == Initial(ONE_TRY, durable) && op == FailingTick(0, None)
    ensures var t := Step(ONE_TRY, s, op);
      && t.cursor == 1 && t.checkpoint == Some(1) && t.dead.Keys == {FIRST.key} && t.landed == {} && t.taken == {}
      && t.savedDead == (if durable then Some(t.dead) else None)
    ensures Complete({FIRST}, s, op.poll, 0) && !RollsBack(ONE_TRY, s, op.poll)
  {
    hide Tick, RelayAll, Pow2;
    OneFailure(ONE_TRY, s, op.poll, op.ws);
    assert FIRST in op.poll.messages;
  }

  /** Reachable, and fatal to the runbook: drained after the cursor has passed, the message is in no queue and never sent again. */
  lemma {:induction false} DrainedMessageIsLost(durable: bool, s: State, ops: seq<Op>, more: seq<Op>)
    requires s == Initial(ONE_TRY, durable) && ops == [FailingTick(0, None), Drains]
    ensures var t := Run(ONE_TRY, s, ops);
      && FIRST.key !in t.landed && FIRST.key !in t.dead && t.cursor > FIRST.srcBlock
      && (Steady(ONE_TRY, {FIRST}, t, more) && PollsFromCursor(ONE_TRY, {FIRST}, t, more) ==>
            forall i :: |t.submitted| <= i < |Run(ONE_TRY, t, more).submitted| ==> Run(ONE_TRY, t, more).submitted[i] != FIRST.key)
  {
    var t := Run(ONE_TRY, s, ops);
    RunTwo(ONE_TRY, s, ops[0], ops[1], ops);
    FirstDies(s, durable, ops[0]);
    hide Run, Tick;
    assert OnDisk(ONE_TRY, t);
    if Steady(ONE_TRY, {FIRST}, t, more) && PollsFromCursor(ONE_TRY, {FIRST}, t, more) {
      DrainedIsNeverRetried(ONE_TRY, {FIRST}, t, more, FIRST.key);
    }
  }

  lemma RunTwo(cfg: Config, s: State, a: Op, b: Op, ops: seq<Op>)
    requires ops == [a, b]
    ensures Run(cfg, s, ops) == Step(cfg, Step(cfg, s, a), b)
  {
    hide Step;
    assert ops[..1] == [a] && [a][..0] == [];
    assert Run(cfg, s, [a]) == Step(cfg, Run(cfg, s, []), a);
    assert Run(cfg, s, ops) == Step(cfg, Run(cfg, s, ops[..1]), b);
  }

  /** Reachable too: with the in-memory store a restart forgets the dead letter, and the message is nowhere. */
  lemma {:induction false} RestartLosesDeadLetters(s: State, ops: seq<Op>)
    requires s == Initial(ONE_TRY, false) && ops == [FailingTick(0, None), Restarts]
    ensures var t := Run(ONE_TRY, s, ops);
      t.cursor > FIRST.srcBlock && !Covered(ONE_TRY, {FIRST}, t, t.cursor, t.dead)
  {
    RunTwo(ONE_TRY, s, ops[0], ops[1], ops);
    FirstDies(s, false, ops[0]);
    hide Run, Tick;
    var t := Run(ONE_TRY, s, ops);
    assert !Handled(t, t.dead, FIRST.key);
  }

  /** Five attempts, two confirmations. */
  const FIVE_TRIES := Config(2, 0, 5, 1000)

  lemma {:induction false} FirstIsPinned(s: State, op: Op)
    requires s == Initial(FIVE_TRIES, true) && op == FailingTick(9, Some(Tip("a", "p")))
    ensures var t := Step(FIVE_TRIES, s, op);
      && t.cursor == 0 && t.landed == {} && t.taken == {} && t.dead == map[] && t.window == [Block(9, "a", "p")]
    ensures Complete({FIRST}, s, op.poll, 7) && !RollsBack(FIVE_TRIES, s, op.poll)
  {
    hide Tick, RelayAll, Pow2, RecordAll;
    RecordFirst(20, Block(9, "a", "p"));
    OneFailure(FIVE_TRIES, s, op.poll, op.ws);
    assert FIRST in op.poll.messages;
  }

  lemma RecordFirst(limit: nat, b: Block)
    requires limit > 0
    ensures RecordAll([], limit, [] + [b]) == [b]
  {
    assert ([] + [b])[..0] == [];
  }

  /** Reachable: a pinned message, a one-block reorg at a later head, and a rollback that jumps over it. */
  lemma {:induction false} RollbackSkipsPinned(s: State, ops: seq<Op>)
    requires s == Initial(FIVE_TRIES, true)
    requires ops == [FailingTick(9, Some(Tip("a", "p"))), FailingTick(10, Some(Tip("c", "b")))]
    ensures var here, t := Step(FIVE_TRIES, s, ops[0]), Run(FIVE_TRIES, s, ops);
      && RollsBack(FIVE_TRIES, here, ops[1].poll) && here.cursor == 0 && t.cursor == 9
      && !Covered(FIVE_TRIES, {FIRST}, t, t.cursor, t.dead)
  {
    RunTwo(FIVE_TRIES, s, ops[0], ops[1], ops);
    FirstIsPinned(s, ops[0]);
    var here := Step(FIVE_TRIES, s, ops[0]);
    OrphanedTip(here.window);
    hide Run, Recorded, DetectReorg;
    var t := Run(FIVE_TRIES, s, ops);
    assert RollsBack(FIVE_TRIES, here, ops[1].poll);
    RecordedKeeps(FIVE_TRIES, here, ops[1].poll);
    assert !Handled(t, t.dead, FIRST.key);
  }

  lemma RecordedKeeps(cfg: Config, s: State, p: Poll)
    ensures var t := Recorded(cfg, s, p); t == s.(window := t.window)
  {
  }

  lemma OrphanedTip(window: seq<Block>)
    requires window == [Block(9, "a", "p")]
    ensures DetectReorg(window, 0, 10, "b") == 1
  {
    assert window[1..] == [];
    assert window[0].hash != "b" by { assert "a"[0] != "b"[0]; }
  }

  /** The chain the relayer saw first, and the one that replaced its blocks from eight on. */
  function OldBlock(n: nat): Block {
    Block(n, ['a'] + Height(n), if n == 0 then "" else ['a'] + Height(n - 1))
  }

  function NewBlock(n: nat): Block {
    if n < 8 then OldBlock(n)
    else Block(n, ['b'] + Height(n), if n == 8 then ['a'] + Height(7) else ['b'] + Height(n - 1))
  }

  function Height(n: nat): (s: string)
    ensures |s| == n
  {
    seq(n, _ => '0')
  }

  lemma TwoChains()
    ensures IsChain(OldBlock) && IsChain(NewBlock) && ForksAt(OldBlock, NewBlock, 8)
  {
    forall n: nat | 8 <= n ensures OldBlock(n).hash != NewBlock(n).hash {
      assert OldBlock(n).hash[0] != NewBlock(n).hash[0];
    }
  }

  function QuietPoll(b: Block, messages: seq<Pending>): Poll {
    Poll(messages, b.number, Some(Tip(b.hash, b.parentHash)), [])
  }

  /** Two confirmations. */
  const TWO_DEEP := Config(2, 0, 5, 1000)

  /** A tick that finds nothing only moves the cursor and records the head. */
  lemma QuietTick(cfg: Config, s: State, b: Block)
    requires !RollsBack(cfg, s, QuietPoll(b, []))
    ensures var t := Tick(cfg, s, QuietPoll(b, []), []).0;
      && t.cursor == Max(s.cursor, ConfirmedHead(cfg, b.number) + 1)
      && t.window == Reorg.RecordBlock(s.window, WindowLimit(cfg), b)
      && t.dead == s.dead && t.landed == s.landed && t.taken == s.taken
  {
    assert [] + [b] == [b] && [b][..0] == [];
    assert RecordAll(s.window, WindowLimit(cfg), [b]) == Reorg.RecordBlock(RecordAll(s.window, WindowLimit(cfg), []), WindowLimit(cfg), b);
    hide Reorg.RecordBlock, DetectReorg;
  }

  /** The new chain's message in block eight. */
  const IN_EIGHT := Pending(Key(1, 2, [], FillInstruction, 8), 8)

  lemma {:induction false} OldHeadsSeen(s: State, ops: seq<Op>)
    requires s == Initial(TWO_DEEP, true) && ops == [Ticks(QuietPoll(OldBlock(8), []), []), Ticks(QuietPoll(OldBlock(9), []), [])]
    ensures var t := Run(TWO_DEEP, s, ops);
      && t.cursor == 8 && t.window == [OldBlock(8), OldBlock(9)] && t.dead == map[] && t.landed == {} && t.taken == {}
    ensures Steady(TWO_DEEP, {IN_EIGHT}, s, ops)
  {
    hide OldBlock, Tick;
    NumberOf(8);
    NumberOf(9);
    QuietTick(TWO_DEEP, s, OldBlock(8));
    var s1 := Step(TWO_DEEP, s, ops[0]);
    assert s1.window == [OldBlock(8)];
    NextFits();
    assert ReorgDepth(TWO_DEEP, s1, ops[1].poll) == 0;
    QuietTick(TWO_DEEP, s1, OldBlock(9));
    RunTwo(TWO_DEEP, s, ops[0], ops[1], ops);
    assert ops[..1] == [ops[0]] && ops[..1][..0] == [];
    assert Without([OldBlock(8)], 9) == [OldBlock(8)] by { assert [OldBlock(8)][1..] == []; }
    hide Run;
    assert Steady(TWO_DEEP, {IN_EIGHT}, s, ops[..1]) by { RunNone(TWO_DEEP, s); }
    RunOne(TWO_DEEP, s, ops[0]);
  }

  lemma RunNone(cfg: Config, s: State)
    ensures Run(cfg, s, []) == s
  {
  }

  lemma RunOne(cfg: Config, s: State, op: Op)
    ensures Run(cfg, s, [op]) == Step(cfg, s, op)
  {
    hide Step;
    assert [op][..0] == [];
  }

  lemma NumberOf(n: nat)
    ensures OldBlock(n).number == n
  {
  }

  lemma NextFits()
    ensures OldBlock(9).parentHash == OldBlock(8).hash
  {
  }

  /**
   * Reachable: two heads of the old chain, then a fork two blocks deep, within the
   * confirmations. It is reported one deep, and the rollback moves the cursor past the new
   * chain's block eight and the message in it, although the poll had just returned that.
   */
  lemma {:induction false} RollbackMissesFork(s: State, ops: seq<Op>, last: Op)
    requires s == Initial(TWO_DEEP, true) && ops == [Ticks(QuietPoll(OldBlock(8), []), []), Ticks(QuietPoll(OldBlock(9), []), [])]
    requires last == Ticks(QuietPoll(NewBlock(10), [IN_EIGHT]), [Weather(0, {}, Returns, Returns, false, 0)])
    ensures var here, t := Run(TWO_DEEP, s, ops), Run(TWO_DEEP, s, ops + [last]);
      && Replaced(here.window, NewBlock, 10, 2) && Linked(here.window)
      && ReorgDepth(TWO_DEEP, here, last.poll) == 1 && RollsBack(TWO_DEEP, here, last.poll)
      && here.cursor == 8 && t.cursor == 9 && !Covered(TWO_DEEP, {IN_EIGHT}, t, t.cursor, t.dead)
  {
    hide Run, Tick, DetectReorg, Recorded, Replaced, Linked, OldBlock, NewBlock;
    OldHeadsSeen(s, ops);
    var here := Run(TWO_DEEP, s, ops);
    TwoBlocksReplaced(here.window);
    TenthFits();
    RunAnother(TWO_DEEP, s, ops, last);
    RollbackIsStep(TWO_DEEP, here, last);
    var t := Step(TWO_DEEP, here, last);
    assert !Handled(t, t.dead, IN_EIGHT.key);
  }

  lemma RollbackIsStep(cfg: Config, s: State, op: Op)
    requires op.Ticks? && |op.poll.messages| <= |op.ws| && RollsBack(cfg, s, op.poll)
    ensures var t := Step(cfg, s, op); t == s.(window := t.window, cursor := RollbackTarget(cfg, s, op.poll))
  {
    hide RecordAll, DetectReorg;
  }

  lemma TwoBlocksReplaced(window: seq<Block>)
    requires window == [OldBlock(8), OldBlock(9)]
    ensures Replaced(window, NewBlock, 10, 2) && Linked(window) && DetectReorg(window, 0, 10, NewBlock(9).hash) == 1
  {
    TwoChains();
    WindowOfTwo(window);
    hide OldBlock, NewBlock, DetectReorg, FindBlock, ForksAt, IsChain, OnChain, Replaced, Linked;
    forall n: nat | 8 <= n < 10 ensures FindBlock(window, n).Some? { assert n == 8 || n == 9; }
    ForkReplaces(window, OldBlock, NewBlock, 8, 10);
    OnChainIsLinked(window, OldBlock);
    SawNinth(window);
  }

  lemma SawNinth(window: seq<Block>)
    requires window == [OldBlock(8), OldBlock(9)] && Linked(window)
    ensures DetectReorg(window, 0, 10, NewBlock(9).hash) == 1
  {
    LinkedSeesDepthOne(window, 0, 10, NewBlock(9).hash);
    assert FindBlock(window, 9) == Some(OldBlock(9)) by { WindowOfTwo(window); }
    assert OldBlock(9).hash[0] != NewBlock(9).hash[0];
    hide DetectReorg, Linked;
  }

  /** Reachable too: the head jumps over a height, the block below it was never recorded, and the fork goes unseen. */
  lemma {:induction false} ForkGoesUnseen(s: State, op: Op, p: Poll)
    requires s == Initial(TWO_DEEP, true) && op == Ticks(QuietPoll(OldBlock(8), []), []) && p == QuietPoll(NewBlock(10), [])
    ensures var here := Step(TWO_DEEP, s, op); here.window == [OldBlock(8)] && ReorgDepth(TWO_DEEP, here, p) == 0
    ensures OldBlock(8).hash != NewBlock(8).hash
  {
    TwoChains();
    QuietTick(TWO_DEEP, s, OldBlock(8));
    hide Tick, DetectReorg;
    var here := Step(TWO_DEEP, s, op);
    assert here.window == [OldBlock(8)];
    NinthUnrecorded(here.window);
    assert ForksAt(OldBlock, NewBlock, 8);
    assert NewBlock(8).hash != OldBlock(8).hash;
  }

  lemma NinthUnrecorded(window: seq<Block>)
    requires window == [OldBlock(8)]
    ensures DetectReorg(window, 0, 10, NewBlock(10).parentHash) == 0
  {
    assert window[1..] == [];
  }

  lemma RunAnother(cfg: Config, s: State, ops: seq<Op>, op: Op)
    ensures Run(cfg, s, ops + [op]) == Step(cfg, Run(cfg, s, ops), op)
  {
    hide Step;
    assert (ops + [op])[..|ops|] == ops;
  }

  lemma TenthFits()
    ensures NewBlock(10).number == 10 && NewBlock(10).parentHash == NewBlock(9).hash
  {
  }

  lemma WindowOfTwo(window: seq<Block>)
    requires window == [OldBlock(8), OldBlock(9)]
    ensures OnChain(window, OldBlock) && FindBlock(window, 8).Some? && FindBlock(window, 9).Some?
  {
    assert window[0] in window && window[1] in window;
  }
}
