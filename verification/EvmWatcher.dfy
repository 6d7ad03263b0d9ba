/**
 * The watcher's scan (evm-watcher.ts): blocks are queried in chunks whose size halves
 * whenever the provider refuses a range. Whatever the provider refuses, a scan that
 * returns misses nothing, which is what the relayer's cursor rests on.
 */
module EvmWatcher {
  import opened Prelude
  import opened Relaying
  import opened Reorg

  /** What the provider says to one `getLogs`. */
  datatype Answer = Logs | RangeError | OtherError

  /** The provider: its chain of lock events block by block, and how it answers a query. */
  datatype Provider = Provider(logs: nat -> seq<Pending>, answer: (nat, nat) -> Answer)

  /** Whatever else it refuses, the provider answers every single block, and errs only on ranges. */
  ghost predicate Patient(p: Provider, from: nat, head: nat, range: nat) {
    && (forall lo, hi :: from <= lo <= hi <= head && hi < lo + range ==> !p.answer(lo, hi).OtherError?)
    && (forall b :: from <= b <= head ==> p.answer(b, b).Logs?)
  }

  /** The events of blocks `lo` up to but not including `hi`, in order. */
  function Scan(p: Provider, lo: nat, hi: nat): seq<Pending>
    requires lo <= hi
    decreases hi - lo
  {
    if lo == hi then [] else Scan(p, lo, hi - 1) + p.logs(hi - 1)
  }

  lemma {:induction false} ScanSplit(p: Provider, lo: nat, mid: nat, hi: nat)
    requires lo <= mid <= hi
    ensures Scan(p, lo, hi) == Scan(p, lo, mid) + Scan(p, mid, hi)
    decreases hi - mid
  {
    if mid < hi {
      ScanSplit(p, lo, mid, hi - 1);
      assert Scan(p, lo, mid) + Scan(p, mid, hi - 1) + p.logs(hi - 1) == Scan(p, lo, mid) + (Scan(p, mid, hi - 1) + p.logs(hi - 1));
    }
  }

  class EVMSourceWatcher {
    const provider: Provider
    var maxBlockRange: nat

    constructor (provider: Provider, maxBlockRange: nat)
      requires maxBlockRange >= 1
      ensures this.provider == provider && this.maxBlockRange == maxBlockRange
    {
      this.provider, this.maxBlockRange := provider, maxBlockRange;
    }

    /** One `getLogs`; on a truthful answer it is the events of the range, inclusive. */
    method GetLogs(fromBlock: nat, toBlock: nat) returns (r: Answer, logs: seq<Pending>)
      requires fromBlock <= toBlock
      ensures r == provider.answer(fromBlock, toBlock)
      ensures r.Logs? ==> logs == Scan(provider, fromBlock, toBlock + 1)
    {
      r := provider.answer(fromBlock, toBlock);
      logs := if r.Logs? then Scan(provider, fromBlock, toBlock + 1) else [];
    }

    /** No result is an error thrown; the halved range is kept for later polls. */
    method Poll(fromBlock: nat, head: nat) returns (r: Option<seq<Pending>>)
      requires maxBlockRange >= 1
      modifies this
      ensures 1 <= maxBlockRange <= old(maxBlockRange)
      ensures r.Some? ==> r.value == if fromBlock <= head then Scan(provider, fromBlock, head + 1) else []
      ensures Patient(provider, fromBlock, head, old(maxBlockRange)) ==> r.Some?
    {
      var messages: seq<Pending>, scanHead := [], fromBlock;
      while scanHead <= head
        invariant 1 <= maxBlockRange <= old(maxBlockRange)
        invariant fromBlock <= scanHead && (scanHead <= head + 1 || scanHead == fromBlock)
        invariant messages == Scan(provider, fromBlock, scanHead)
        decreases head + 1 - scanHead, maxBlockRange
      {
        var toBlock := Min(scanHead + maxBlockRange - 1, head);
        var answer, logs := GetLogs(scanHead, toBlock);
        if answer.RangeError? {
          if maxBlockRange <= 1 { return None; }
          maxBlockRange := Max(1, maxBlockRange / 2);
          continue;
        }
        if answer.OtherError? { return None; }
        ScanSplit(provider, fromBlock, scanHead, toBlock + 1);
        messages := messages + logs;
        scanHead := toBlock + 1;
      }
      r := Some(messages);
    }
  }

  /** A provider reports each event at its own block. */
  ghost predicate Truthful(p: Provider) {
    forall b: nat :: forall m <- p.logs(b) :: m.srcBlock == b
  }

  lemma {:induction false} ScanFinds(p: Provider, lo: nat, hi: nat, m: Pending)
    requires lo <= hi && Truthful(p)
    ensures m in Scan(p, lo, hi) <==> lo <= m.srcBlock < hi && m in p.logs(m.srcBlock)
    decreases hi - lo
  {
    if lo < hi { ScanFinds(p, lo, hi - 1, m); }
  }

  /** A poll that returns is complete and sound for the relayer, whatever chunks it was made of. */
  lemma {:induction false} PollServesRelayer(p: Provider, chain: set<Pending>, s: State, head: nat, confirmedHead: nat, tip: Option<Tip>, headers: seq<Block>)
    requires Truthful(p) && s.cursor <= head && confirmedHead <= head
    requires forall m: Pending :: m.srcBlock <= head ==> (m in chain <==> m in p.logs(m.srcBlock))
    ensures var poll := Poll(Scan(p, s.cursor, head + 1), head, tip, headers);
      Complete(chain, s, poll, confirmedHead) && Sound(chain, s, poll)
  {
    forall m: Pending ensures m in Scan(p, s.cursor, head + 1) <==> s.cursor <= m.srcBlock < head + 1 && m in p.logs(m.srcBlock) {
      ScanFinds(p, s.cursor, head + 1, m);
    }
  }
}
