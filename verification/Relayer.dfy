/** The relayer's classes (relayer.ts, dead-letter.ts), proved against module Relaying. */
module Relayer {
  import opened Prelude
  import opened Relaying
  import opened Reorg

  /**
   * Both stores of the source: without a file it is the in-memory one, whose `persist` does
   * nothing; with a file it is the hybrid one.
   */
  class DeadLetterStore {
    var entries: map<Key, DeadLetter>
    var file: Option<map<Key, DeadLetter>>

    constructor (durable: bool)
      ensures entries == map[] && file == if durable then Some(map[]) else None
    {
      entries := map[];
      file := if durable then Some(map[]) else None;
    }

    method Persist()
      modifies this`file
      ensures file == if old(file).Some? then Some(entries) else None
    {
      if file.Some? { file := Some(entries); }
    }

    /** What a new process starts with. */
    method Load()
      modifies this`entries
      ensures entries == file.UnwrapOr(map[])
    {
      entries := if file.Some? then file.value else map[];
    }

    method Add(key: Key, pending: Pending, attempts: nat)
      modifies this`entries
      ensures entries == old(entries)[key := DeadLetter(pending, attempts)]
    {
      entries := entries[key := DeadLetter(pending, attempts)];
    }

    method Drain() returns (all: map<Key, DeadLetter>)
      modifies this`entries
      ensures all == old(entries) && entries == map[]
    {
      all := entries;
      entries := map[];
    }

    method Discard(key: Key) returns (found: bool)
      modifies this`entries
      ensures found == (key in old(entries)) && entries == old(entries) - {key}
    {
      found := key in entries;
      entries := entries - {key};
    }

    predicate Has(key: Key)
      reads this
    {
      key in entries
    }
  }

  class Relayer {
    const config: Config
    const deadLetter: DeadLetterStore
    var cursor: nat
    var attempts: map<Key, RetryState>
    var metrics: Metrics
    var blockWindow: seq<Block>

    // The checkpoint file and the destination chain.
    var checkpoint: Option<nat>
    var landed: set<Key>
    var submitted: seq<Key>
    ghost var taken: set<Key>

    ghost function View(): State
      reads this, deadLetter
    {
      State(cursor, checkpoint, attempts, deadLetter.entries, deadLetter.file, blockWindow, metrics, landed, submitted, taken)
    }

    constructor (config: Config, deadLetter: DeadLetterStore)
      requires deadLetter.entries == map[] && (deadLetter.file.Some? ==> deadLetter.file.value == map[])
      ensures this.config == config && this.deadLetter == deadLetter && View() == Initial(config, deadLetter.file.Some?)
    {
      this.config, this.deadLetter, cursor := config, deadLetter, config.startBlock;
      attempts, metrics, blockWindow := map[], NO_METRICS, [];
      checkpoint, landed, submitted, taken := None, {}, [], {};
    }

    method Resume()
      modifies this`cursor
      ensures cursor == Relaying.Resume(config, old(View())).cursor
    {
      cursor := if checkpoint.Some? then checkpoint.value else config.startBlock;
    }

    /** A new process over the same files and the same chains. */
    method Restart()
      modifies this`cursor, this`attempts, this`metrics, this`blockWindow, deadLetter
      ensures View() == Relaying.Resume(config, old(View()))
    {
      attempts, metrics, blockWindow := map[], NO_METRICS, [];
      deadLetter.Load();
      Resume();
    }

    /** The destination's answer, or none if asking failed. */
    method IsDelivered(key: Key, w: Weather) returns (r: Option<bool>)
      requires !w.check.Fatal?
      ensures r == if w.check.Returns? then Some(key in landed) else None
    {
      r := if w.check.Returns? then Some(key in landed) else None;
    }

    method Deliver(pending: Pending, w: Weather) returns (ok: bool)
      modifies this`landed, this`submitted
      ensures View() == Relaying.Submit(old(View()), pending, w) && ok == w.send.Returns?
    {
      submitted := submitted + [pending.key];
      if w.send.Returns? || w.landedAnyway { landed := landed + {pending.key}; }
      ok := w.send.Returns?;
    }

    /** The catch block. */
    method RecordFailure(pending: Pending, failedAt: nat) returns (r: RelayResult)
      modifies this`attempts, this`metrics, deadLetter`entries
      ensures (View(), r) == Relaying.Failed(config, old(View()), pending, failedAt)
    {
      var key := pending.key;
      var attempt := (if key in attempts then attempts[key].attempts else 0) + 1;
      var backoff := config.baseBackoffMs * Pow2(attempt - 1);
      attempts := attempts[key := RetryState(attempt, failedAt + backoff)];
      metrics := metrics.(maxRetryDepth := Max(metrics.maxRetryDepth, attempt));
      if attempt >= config.maxAttempts {
        deadLetter.Add(key, pending, attempt);
        attempts := attempts - {key};
        assert attempts == old(attempts) - {key};
        metrics := metrics.(deadLettered := metrics.deadLettered + 1);
        return RelayResult(key, false, true, false);
      }
      metrics := metrics.(failed := metrics.failed + 1);
      r := RelayResult(key, false, false, false);
    }

    method RelayOne(pending: Pending, w: Weather) returns (r: Option<RelayResult>)
      modifies this`landed, this`submitted, this`attempts, this`metrics, deadLetter`entries
      ensures (View(), r) == Relaying.RelayOne(config, old(View()), pending, w)
    {
      hide Relaying.Failed, Relaying.Submit;
      var key := pending.key;
      landed := landed + w.lands;
      if deadLetter.Has(key) { return Some(RelayResult(key, false, true, false)); }
      if key in attempts {
        if w.now < attempts[key].nextRetryAt { return Some(RelayResult(key, false, false, false)); }
      }
      if w.check.Fatal? { return None; }
      var found := IsDelivered(key, w);
      if found.None? {
        var failure := RecordFailure(pending, w.failedAt);
        return Some(failure);
      }
      if found.value {
        attempts := attempts - {key};
        metrics := metrics.(alreadyDelivered := metrics.alreadyDelivered + 1);
        return Some(RelayResult(key, false, true, true));
      }
      var ok := Deliver(pending, w);
      if w.send.Fatal? { return None; }
      if !ok {
        var failure := RecordFailure(pending, w.failedAt);
        return Some(failure);
      }
      attempts := attempts - {key};
      metrics := metrics.(delivered := metrics.delivered + 1);
      r := Some(RelayResult(key, true, true, false));
    }

    /** Drop retry bookkeeping for messages that are no longer observed. */
    method ForgetUnobserved(messages: seq<Pending>)
      modifies this`attempts
      ensures View() == Relaying.Prune(old(View()), messages)
    {
      var observed := {};
      for i := 0 to |messages|
        invariant observed == Keys(messages[..i]) && attempts == old(attempts)
      {
        KeysSnoc(messages, i);
        observed := observed + {messages[i].key};
      }
      assert messages[..|messages|] == messages;
      var todo := attempts.Keys;
      while todo != {}
        invariant todo <= old(attempts).Keys
        invariant attempts == map k | k in old(attempts) && (k in observed || k in todo) :: old(attempts)[k]
      {
        var k :| k in todo;
        if k !in observed { attempts := attempts - {k}; }
        todo := todo - {k};
      }
    }

    method Tick(poll: Poll, ws: seq<Weather>) returns (r: Option<seq<RelayResult>>)
      requires |poll.messages| <= |ws|
      modifies this, deadLetter
      ensures (View(), r) == Relaying.Tick(config, old(View()), poll, ws)
    {
      hide Relaying.RelayOne, Relaying.Prune, Advance, Relaying.Recorded, DetectReorg, RelayAll;
      var messages, head := poll.messages, poll.head;
      if poll.tip.Some? {
        var reorgDepth := FindReorg(head, poll.tip.value.parentHash);
        if reorgDepth > 0 {
          var isLocalRollback := head == cursor && |messages| > 0;
          if !(reorgDepth > config.confirmations && !isLocalRollback) {
            MovedThenRecorded(config, View(), poll, Max(config.startBlock, head - reorgDepth));
            cursor := Max(config.startBlock, head - reorgDepth);
            RecordHeaders(poll);
            return Some([]);
          }
        }
        RecordHeaders(poll);
      }
      NoTip(config, old(View()), poll);
      assert View() == Relaying.Recorded(config, old(View()), poll);
      var confirmedHead := Max(0, head - config.confirmations);
      ForgetUnobserved(messages);
      ghost var s0 := View();
      assert s0 == Prepared(config, old(View()), poll);
      var results := RelayEach(messages, ws, confirmedHead);
      if results.None? { return None; }
      MoveCursor(messages, results.value, confirmedHead);
      r := results;
    }

    /** The loop over the messages of one poll; no results is a fatal error. */
    method RelayEach(messages: seq<Pending>, ws: seq<Weather>, confirmedHead: nat) returns (r: Option<seq<RelayResult>>)
      requires |messages| <= |ws|
      modifies this`landed, this`submitted, this`attempts, this`metrics, deadLetter`entries
      ensures var p := RelayAll(config, old(View()), messages, ws, confirmedHead);
        View() == p.state && r == if p.fatal then None else Some(p.results)
    {
      hide Relaying.RelayOne;
      ghost var s0 := View();
      var results := [];
      for i := 0 to |messages|
        invariant Progress(View(), results, false) == RelayAll(config, s0, messages[..i], ws, confirmedHead)
      {
        assert messages[..i + 1][..i] == messages[..i];
        if messages[i].srcBlock > confirmedHead { continue; }
        var result := RelayOne(messages[i], ws[i]);
        if result.None? {
          FatalEnds(config, s0, messages, ws, confirmedHead, i + 1);
          return None;
        }
        results := results + [result.value];
      }
      assert messages[..|messages|] == messages;
      r := Some(results);
    }

    method Find(number: int) returns (r: Option<Block>)
      ensures r == FindBlock(blockWindow, number)
    {
      for i := 0 to |blockWindow|
        invariant FindBlock(blockWindow, number) == FindBlock(blockWindow[i..], number)
      {
        if blockWindow[i].number == number { return Some(blockWindow[i]); }
        assert blockWindow[i..][1..] == blockWindow[i + 1..];
      }
      r := None;
    }

    /** `detectReorg`. */
    method FindReorg(head: nat, parentHash: BlockHash) returns (depth: nat)
      ensures depth == DetectReorg(blockWindow, config.startBlock, head, parentHash)
    {
      hide FindBlock;
      var prev := Find(head - 1);
      if prev.None? { return 0; }
      if prev.value.hash == parentHash { return 0; }
      var current := prev.value;
      depth := 1;
      while current.number > config.startBlock
        invariant current.number < head
        invariant Walk(blockWindow, config.startBlock, head, prev.value, 1) == Walk(blockWindow, config.startBlock, head, current, depth)
        decreases current.number
      {
        var ancestor := Find(current.number - 1);
        if ancestor.None? { break; }
        if ancestor.value.hash == current.parentHash { return head - current.number; }
        current, depth := ancestor.value, depth + 1;
      }
    }

    method FindIndex(number: nat) returns (i: nat)
      ensures i <= |blockWindow| && (forall j :: 0 <= j < i ==> blockWindow[j].number != number)
      ensures i < |blockWindow| ==> blockWindow[i].number == number
    {
      i := 0;
      while i < |blockWindow| && blockWindow[i].number != number
        invariant i <= |blockWindow| && forall j :: 0 <= j < i ==> blockWindow[j].number != number
      {
        i := i + 1;
      }
    }

    method RecordBlock(b: Block)
      modifies this`blockWindow
      ensures blockWindow == Reorg.RecordBlock(old(blockWindow), WindowLimit(config), b)
    {
      hide Without;
      var limit := Max(config.confirmations + 10, 20);
      var existing := FindIndex(b.number);
      SplicedIsWithout(blockWindow, b.number, existing);
      if existing < |blockWindow| { blockWindow := blockWindow[..existing] + blockWindow[existing + 1..]; }
      blockWindow := blockWindow + [b];
      if |blockWindow| > limit { blockWindow := blockWindow[1..]; }
    }

    method RecordHeaders(poll: Poll)
      requires poll.tip.Some?
      modifies this`blockWindow
      ensures View() == Relaying.Recorded(config, old(View()), poll)
    {
      hide Reorg.RecordBlock;
      var headers := poll.blockHeaders + [Block(poll.head, poll.tip.value.hash, poll.tip.value.parentHash)];
      for i := 0 to |headers|
        invariant blockWindow == RecordAll(old(blockWindow), WindowLimit(config), headers[..i])
      {
        assert headers[..i + 1][..i] == headers[..i];
        RecordBlock(headers[i]);
      }
      assert headers[..|headers|] == headers;
    }

    /** Past every resolved block, then to disk with the dead letters. */
    method MoveCursor(messages: seq<Pending>, results: seq<RelayResult>, confirmedHead: nat)
      modifies this`cursor, this`checkpoint, this`metrics, deadLetter`file
      ensures View() == Advance(confirmedHead, messages, Progress(old(View()), results, false))
    {
      var unresolved := CountOpen(results);
      metrics := metrics.(unresolved := unresolved);
      var byKey := IndexResults(results);
      var lowest := FindLowest(messages, byKey, confirmedHead);
      var nextCursor := if lowest.None? then confirmedHead + 1 else Min(confirmedHead + 1, lowest.value);
      cursor := Max(cursor, nextCursor);
      checkpoint := Some(cursor);
      deadLetter.Persist();
    }
  }

  lemma MovedThenRecorded(cfg: Config, s: State, p: Poll, cursor: nat)
    ensures Relaying.Recorded(cfg, s.(cursor := cursor), p) == Relaying.Recorded(cfg, s, p).(cursor := cursor)
  {
  }

  lemma NoTip(cfg: Config, s: State, p: Poll)
    ensures p.tip.None? ==> Relaying.Recorded(cfg, s, p) == s
  {
  }

  lemma KeysSnoc(ms: seq<Pending>, i: nat)
    requires i < |ms|
    ensures Keys(ms[..i + 1]) == Keys(ms[..i]) + {ms[i].key}
  {
    forall k ensures k in Keys(ms[..i + 1]) <==> k in Keys(ms[..i]) || k == ms[i].key {
      if k in Keys(ms[..i]) {
        var j :| 0 <= j < i && ms[..i][j].key == k;
        assert ms[..i + 1][j].key == k;
      }
      assert ms[..i + 1][i].key == ms[i].key;
    }
  }

  lemma {:induction false} FatalEnds(cfg: Config, s: State, ms: seq<Pending>, ws: seq<Weather>, confirmedHead: nat, n: nat)
    requires |ms| <= |ws| && n <= |ms| && RelayAll(cfg, s, ms[..n], ws, confirmedHead).fatal
    ensures RelayAll(cfg, s, ms, ws, confirmedHead) == RelayAll(cfg, s, ms[..n], ws, confirmedHead)
  {
    if n == |ms| {
      assert ms[..n] == ms;
    } else {
      var m := |ms| - 1;
      assert ms[..m][..n] == ms[..n];
      FatalEnds(cfg, s, ms[..m], ws, confirmedHead, n);
    }
  }

  method CountOpen(results: seq<RelayResult>) returns (n: nat)
    ensures n == CountUnresolved(results)
  {
    n := 0;
    for i := 0 to |results|
      invariant n == CountUnresolved(results[..i])
    {
      assert results[..i + 1][..i] == results[..i];
      if !results[i].resolved { n := n + 1; }
    }
    assert results[..|results|] == results;
  }

  /** Later results replace earlier ones under the same key. */
  method IndexResults(results: seq<RelayResult>) returns (byKey: map<Key, RelayResult>)
    ensures byKey == ResultByKey(results)
  {
    byKey := map[];
    for i := 0 to |results|
      invariant byKey == ResultByKey(results[..i])
    {
      assert results[..i + 1][..i] == results[..i];
      byKey := byKey[results[i].key := results[i]];
    }
    assert results[..|results|] == results;
  }

  method FindLowest(messages: seq<Pending>, byKey: map<Key, RelayResult>, confirmedHead: nat) returns (lowest: Option<nat>)
    ensures lowest == LowestUnresolved(messages, byKey, confirmedHead)
  {
    lowest := None;
    for i := 0 to |messages|
      invariant lowest == LowestUnresolved(messages[..i], byKey, confirmedHead)
    {
      assert messages[..i + 1][..i] == messages[..i];
      if messages[i].srcBlock > confirmedHead { continue; }
      if messages[i].key in byKey && !byKey[messages[i].key].resolved {
        lowest := Some(if lowest.None? then messages[i].srcBlock else Min(lowest.value, messages[i].srcBlock));
      }
    }
    assert messages[..|messages|] == messages;
  }
}
