/**
 * The relayer's window of recent blocks and its reorg detection (relayer.ts), against forks
 * of the source chain. The walk compares the window with itself, so the depth it reports
 * counts broken links of the window; when that is the depth of the fork is told exactly.
 */
module Reorg {
  import opened Prelude

  type BlockHash = string

  datatype Block = Block(number: nat, hash: BlockHash, parentHash: BlockHash)

  /** `find` by height. */
  function FindBlock(window: seq<Block>, number: int): (r: Option<Block>)
    ensures r.Some? ==> r.value in window && r.value.number == number
    ensures r.None? ==> forall b <- window :: b.number != number
  {
    if window == [] then None
    else if window[0].number == number then Some(window[0])
    else FindBlock(window[1..], number)
  }

  /** The first block of a height is spliced out. */
  function Without(window: seq<Block>, number: nat): (r: seq<Block>)
    ensures |window| - 1 <= |r| <= |window| && forall b <- r :: b in window
  {
    if window == [] then []
    else if window[0].number == number then window[1..]
    else [window[0]] + Without(window[1..], number)
  }

  lemma {:induction false} SplicedIsWithout(window: seq<Block>, number: nat, i: nat)
    requires i <= |window| && forall j :: 0 <= j < i ==> window[j].number != number
    requires i < |window| ==> window[i].number == number
    ensures Without(window, number) == if i < |window| then window[..i] + window[i + 1..] else window
  {
    if i == 0 {
      if window != [] { assert window[..0] + window[1..] == window[1..]; }
    } else {
      var rest := window[1..];
      SplicedIsWithout(rest, number, i - 1);
      assert Without(window, number) == [window[0]] + Without(rest, number);
      hide Without;
      if i < |window| { SpliceAfterFirst(window, i); } else { assert window == [window[0]] + rest; }
    }
  }

  lemma SpliceAfterFirst(window: seq<Block>, i: nat)
    requires 0 < i < |window|
    ensures var rest := window[1..]; [window[0]] + (rest[..i - 1] + rest[i..]) == window[..i] + window[i + 1..]
  {
  }

  /** `recordBlock`: the latest view of a height goes last, and the oldest entry out. */
  function RecordBlock(window: seq<Block>, limit: nat, b: Block): (r: seq<Block>) {
    var pushed := Without(window, b.number) + [b];
    if |pushed| > limit then pushed[1..] else pushed
  }

  function RecordAll(window: seq<Block>, limit: nat, blocks: seq<Block>): seq<Block> {
    if blocks == [] then window
    else RecordBlock(RecordAll(window, limit, blocks[..|blocks| - 1]), limit, blocks[|blocks| - 1])
  }

  /** The loop of `detectReorg`, from a block whose successor did not fit. */
  function Walk(window: seq<Block>, startBlock: nat, head: nat, current: Block, depth: nat): nat
    requires current.number < head
    decreases current.number
  {
    if current.number <= startBlock then depth
    else
      match FindBlock(window, current.number - 1)
      case None => depth
      case Some(ancestor) =>
        if ancestor.hash == current.parentHash then head - current.number
        else Walk(window, startBlock, head, ancestor, depth + 1)
  }

  function DetectReorg(window: seq<Block>, startBlock: nat, head: nat, parentHash: BlockHash): nat {
    match FindBlock(window, head - 1)
    case None => 0
    case Some(prev) => if prev.hash == parentHash then 0 else Walk(window, startBlock, head, prev, 1)
  }

  // --- What the depth means ------------------------------------------------------------

  /** The window holds two neighbouring blocks that do not fit each other. */
  predicate BrokenAt(window: seq<Block>, startBlock: nat, n: int) {
    var child, parent := FindBlock(window, n), FindBlock(window, n - 1);
    n > startBlock && child.Some? && parent.Some? && parent.value.hash != child.value.parentHash
  }

  lemma {:induction false} WalkCounts(window: seq<Block>, startBlock: nat, head: nat, current: Block, depth: nat)
    requires current.number + depth == head && depth > 0 && FindBlock(window, current.number) == Some(current)
    ensures var d := Walk(window, startBlock, head, current, depth);
      && depth <= d <= head && !BrokenAt(window, startBlock, head - d)
      && forall n :: head - d < n <= current.number ==> BrokenAt(window, startBlock, n)
    decreases current.number
  {
    hide FindBlock;
    if BrokenAt(window, startBlock, current.number) {
      WalkCounts(window, startBlock, head, FindBlock(window, current.number - 1).value, depth + 1);
    }
  }

  /** A reorg is seen exactly if the window's block below the head is not the new head's parent. */
  lemma {:induction false} SeenIffParentDiffers(window: seq<Block>, startBlock: nat, head: nat, parentHash: BlockHash)
    ensures DetectReorg(window, startBlock, head, parentHash) > 0 <==>
      FindBlock(window, head - 1).Some? && FindBlock(window, head - 1).value.hash != parentHash
  {
    var prev := FindBlock(window, head - 1);
    if prev.Some? && prev.value.hash != parentHash {
      WalkCounts(window, startBlock, head, prev.value, 1);
    }
  }

  /** The reported depth is one more than the number of broken links directly below the head, and nothing else. */
  lemma {:induction false} DepthCountsBrokenLinks(window: seq<Block>, startBlock: nat, head: nat, parentHash: BlockHash, d: nat)
    requires DetectReorg(window, startBlock, head, parentHash) > 0 && 0 < d <= head
    ensures DetectReorg(window, startBlock, head, parentHash) == d <==>
      !BrokenAt(window, startBlock, head - d) && forall n :: head - d < n < head ==> BrokenAt(window, startBlock, n)
  {
    hide FindBlock, BrokenAt, Walk;
    var prev := FindBlock(window, head - 1).value;
    WalkCounts(window, startBlock, head, prev, 1);
  }

  // --- Forks -----------------------------------------------------------------------------

  /** A source chain, height by height. */
  type Chain = nat -> Block

  ghost predicate IsChain(c: Chain) {
    forall n: nat :: c(n).number == n && (n > 0 ==> c(n).parentHash == c(n - 1).hash)
  }

  /**
   * The new chain below `head` replaces the last `k` blocks: all of them are recorded and
   * none is the new chain's, and the block below them, if recorded, is.
   */
  ghost predicate Replaced(window: seq<Block>, chain: Chain, head: nat, k: nat) {
    && 0 < k <= head
    && (forall n: nat :: head - k <= n < head ==>
          FindBlock(window, n).Some? && FindBlock(window, n).value.hash != chain(n).hash)
    && (k < head && FindBlock(window, head - k - 1).Some? ==>
          FindBlock(window, head - k - 1).value.hash == chain(head - k - 1).hash)
  }

  /** Every link of the window above the first replaced block is broken. */
  ghost predicate BrokenAbove(window: seq<Block>, startBlock: nat, head: nat, k: nat) {
    forall n :: head - k < n < head ==> BrokenAt(window, startBlock, n)
  }

  /** The walk stops at the first replaced block if and only if the window broke exactly above it. */
  lemma {:induction false} DepthIsForkIff(window: seq<Block>, startBlock: nat, chain: Chain, head: nat, k: nat)
    requires Replaced(window, chain, head, k)
    ensures DetectReorg(window, startBlock, head, chain(head - 1).hash) == k <==>
      !BrokenAt(window, startBlock, head - k) && BrokenAbove(window, startBlock, head, k)
  {
    hide FindBlock, BrokenAt, Walk;
    SeenIffParentDiffers(window, startBlock, head, chain(head - 1).hash);
    DepthCountsBrokenLinks(window, startBlock, head, chain(head - 1).hash, k);
  }

  /** It goes back at least as far as the fork if and only if every link above the first replaced block is broken. */
  lemma {:induction false} ReachesForkIff(window: seq<Block>, startBlock: nat, chain: Chain, head: nat, k: nat)
    requires Replaced(window, chain, head, k)
    ensures DetectReorg(window, startBlock, head, chain(head - 1).hash) >= k <==> BrokenAbove(window, startBlock, head, k)
  {
    hide FindBlock, BrokenAt, Walk;
    SeenIffParentDiffers(window, startBlock, head, chain(head - 1).hash);
    DeeperIff(window, startBlock, head, chain(head - 1).hash, k);
  }

  /** A depth of at least `k` takes `k - 1` broken links in a row below the head. */
  lemma {:induction false} DeeperIff(window: seq<Block>, startBlock: nat, head: nat, parentHash: BlockHash, k: nat)
    requires DetectReorg(window, startBlock, head, parentHash) > 0 && k > 0
    ensures DetectReorg(window, startBlock, head, parentHash) >= k <==> BrokenAbove(window, startBlock, head, k)
  {
    hide FindBlock, BrokenAt;
    var prev := FindBlock(window, head - 1).value;
    FoundAgain(window, head - 1);
    WalkCounts(window, startBlock, head, prev, 1);
    var d := DetectReorg(window, startBlock, head, parentHash);
    assert BrokenAbove(window, startBlock, head, k) && d < k ==> BrokenAt(window, startBlock, head - d);
    hide Walk;
  }

  lemma FoundAgain(window: seq<Block>, number: int)
    requires FindBlock(window, number).Some?
    ensures FindBlock(window, number).value.number == number
  {
  }

  // --- A window recorded from one chain -----------------------------------------------------

  ghost predicate OnChain(window: seq<Block>, c: Chain) {
    forall b <- window :: b == c(b.number)
  }

  /** Recording headers of one chain leaves a window of that chain. */
  lemma {:induction false} RecordStaysOnChain(window: seq<Block>, limit: nat, blocks: seq<Block>, c: Chain)
    requires OnChain(window, c) && OnChain(blocks, c)
    ensures OnChain(RecordAll(window, limit, blocks), c)
  {
    if blocks != [] {
      var m := |blocks| - 1;
      assert blocks == blocks[..m] + [blocks[m]];
      RecordStaysOnChain(window, limit, blocks[..m], c);
      var before := RecordAll(window, limit, blocks[..m]);
      var pushed := Without(before, blocks[m].number) + [blocks[m]];
      assert forall b <- pushed :: b in before || b == blocks[m];
    }
  }

  /** Every recorded block fits the one recorded below it. */
  ghost predicate Linked(window: seq<Block>) {
    forall child <- window :: var parent := FindBlock(window, child.number - 1); parent.Some? ==> parent.value.hash == child.parentHash
  }

  lemma {:induction false} OnChainIsLinked(window: seq<Block>, c: Chain)
    requires OnChain(window, c) && IsChain(c)
    ensures Linked(window)
  {
    forall child | child in window
      ensures var parent := FindBlock(window, child.number - 1); parent.Some? ==> parent.value.hash == child.parentHash
    {
      var parent := FindBlock(window, child.number - 1);
      if parent.Some? { assert parent.value == c(child.number - 1) && child == c(child.number); }
    }
  }

  /** On a linked window a reorg is reported one block deep or not at all. */
  lemma {:induction false} LinkedSeesDepthOne(window: seq<Block>, startBlock: nat, head: nat, parentHash: BlockHash)
    requires Linked(window)
    ensures DetectReorg(window, startBlock, head, parentHash) ==
      if FindBlock(window, head - 1).Some? && FindBlock(window, head - 1).value.hash != parentHash then 1 else 0
  {
    hide FindBlock, Walk;
    SeenIffParentDiffers(window, startBlock, head, parentHash);
    if DetectReorg(window, startBlock, head, parentHash) > 0 {
      assert !BrokenAt(window, startBlock, head - 1);
      DepthCountsBrokenLinks(window, startBlock, head, parentHash, 1);
    }
  }

  /** Two chains that part at the height `fork`. */
  ghost predicate ForksAt(a: Chain, b: Chain, fork: nat) {
    && (forall n: nat :: n < fork ==> a(n) == b(n))
    && (forall n: nat :: fork <= n ==> a(n).hash != b(n).hash)
  }

  /**
   * With a window recorded from the old chain, a fork is seen if and only if the block below
   * the new head was recorded; and its depth is right if and only if, besides, it is one.
   */
  lemma {:induction false} ForkSeenIffRecorded(window: seq<Block>, startBlock: nat, a: Chain, b: Chain, fork: nat, head: nat)
    requires OnChain(window, a) && IsChain(a) && ForksAt(a, b, fork) && fork < head
    ensures var d := DetectReorg(window, startBlock, head, b(head - 1).hash); var recorded := FindBlock(window, head - 1).Some?;
      && (d > 0 <==> recorded)
      && (d == head - fork <==> recorded && fork == head - 1)
  {
    OnChainIsLinked(window, a);
    LinkedSeesDepthOne(window, startBlock, head, b(head - 1).hash);
    var prev := FindBlock(window, head - 1);
    if prev.Some? { assert prev.value == a(head - 1); }
    hide FindBlock, Walk, Linked;
  }

  /** Such a fork replaces all its recorded heights, if every one of them was recorded. */
  lemma {:induction false} ForkReplaces(window: seq<Block>, a: Chain, b: Chain, fork: nat, head: nat)
    requires OnChain(window, a) && ForksAt(a, b, fork) && fork < head
    requires forall n: nat :: fork <= n < head ==> FindBlock(window, n).Some?
    ensures Replaced(window, b, head, head - fork)
  {
    forall n: nat | fork <= n < head ensures FindBlock(window, n).value.hash != b(n).hash {
      assert FindBlock(window, n).value == a(n);
    }
    if fork > 0 && FindBlock(window, fork - 1).Some? { assert FindBlock(window, fork - 1).value == a(fork - 1); }
  }

  // --- The window ---------------------------------------------------------------------

  /** One record a height. */
  ghost predicate OnePerHeight(window: seq<Block>) {
    forall i, j :: 0 <= i < j < |window| ==> window[i].number != window[j].number
  }

  lemma {:induction false} WithoutIsExact(window: seq<Block>, number: nat, b: Block)
    requires OnePerHeight(window)
    ensures OnePerHeight(Without(window, number))
    ensures b in Without(window, number) <==> b in window && b.number != number
  {
    if window != [] && window[0].number != number {
      var rest := window[1..];
      WithoutIsExact(rest, number, b);
      WithoutKeepsOut(rest, number, window[0].number);
    }
  }

  lemma {:induction false} WithoutKeepsOut(window: seq<Block>, number: nat, other: nat)
    requires forall c <- window :: c.number != other
    ensures forall c <- Without(window, number) :: c.number != other
  {
  }

  /** After recording, a height in the window shows the block recorded last; no height twice, and never past the bound. */
  lemma {:induction false} RecordShowsLatest(window: seq<Block>, limit: nat, b: Block)
    requires OnePerHeight(window) && |window| <= limit && limit > 0
    ensures var r := RecordBlock(window, limit, b);
      OnePerHeight(r) && |r| <= limit && FindBlock(r, b.number) == Some(b)
  {
    var kept := Without(window, b.number);
    var pushed := kept + [b];
    WithoutIsExact(window, b.number, b);
    forall i | 0 <= i < |kept| ensures kept[i].number != b.number {
      WithoutIsExact(window, b.number, kept[i]);
    }
    var r := RecordBlock(window, limit, b);
    assert r[|r| - 1] == b;
    FindLast(r, b);
  }

  lemma {:induction false} FindLast(window: seq<Block>, b: Block)
    requires OnePerHeight(window) && b in window
    ensures FindBlock(window, b.number) == Some(b)
  {
    var r := FindBlock(window, b.number);
    var i :| 0 <= i < |window| && window[i] == b;
    var j :| 0 <= j < |window| && window[j] == r.value;
    if i < j { assert window[i].number != window[j].number; }
    if j < i { assert window[j].number != window[i].number; }
  }
}
