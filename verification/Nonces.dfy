/**
 * The inbound replay guard of lib.rs: a bitmap of consumed transport nonces with a
 * pruning floor, and its refinement to a plain set of consumed nonces.
 */
module Nonces {
  import opened Prelude
  import opened Bitmap

  const MAX_PRUNE_WORDS_PER_CALL: nat := 256

  /** `InboundNonceWord(eid, word)` and `InboundNonceFloor(eid)`. */
  datatype NonceState = NonceState(words: map<(u32, nat), u64>, floors: map<u32, u64>) {
    function Floor(eid: u32): u64 {
      if eid in floors then floors[eid] else 0
    }

    function Word(eid: u32, w: nat): u64 {
      if (eid, w) in words then words[(eid, w)] else 0
    }
  }

  const EMPTY := NonceState(map[], map[])

  /** What the bitmap and the floor together record. */
  predicate Consumed(s: NonceState, eid: u32, n: u64) {
    n >= 1 && (n < s.Floor(eid) || BitSet(s.Word(eid, n / 64), n % 64))
  }

  ghost predicate NonceInv(s: NonceState) {
    && (forall eid <- s.floors :: s.floors[eid] % 64 == 0)
    && (forall k <- s.words :: s.Floor(k.0) <= k.1 * 64 < U64_LIMIT)
    && (forall k <- s.words :: k.1 == 0 ==> !BitSet(s.words[k], 0))
  }

  /** `accept_nonce`; `None` is `StaleNonce`. */
  function AcceptNonce(s: NonceState, eid: u32, nonce: u64): Option<NonceState> {
    var w := s.Word(eid, nonce / 64);
    if nonce == 0 || nonce < s.Floor(eid) || BitSet(w, nonce % 64) then None
    else Some(s.(words := s.words[(eid, nonce / 64) := SetBit(w, nonce % 64)]))
  }

  /** Nonce 0 does not exist, so word 0 is complete without its bit 0. */
  function CompleteMask(w: nat): u64 {
    if w == 0 then FULL - 1 else FULL
  }

  predicate IsComplete(s: NonceState, eid: u32, w: nat) {
    (eid, w) in s.words && s.words[(eid, w)] == CompleteMask(w)
  }

  /** The first word from `w` on that is not complete, looking no further than `end`. */
  function FirstGap(s: NonceState, eid: u32, w: nat, end: nat): (g: nat)
    requires w <= end
    ensures w <= g <= end
    ensures forall i :: w <= i < g ==> IsComplete(s, eid, i)
    ensures g < end ==> !IsComplete(s, eid, g)
    decreases end - w
  {
    if w == end || !IsComplete(s, eid, w) then w else FirstGap(s, eid, w + 1, end)
  }

  function DropWords(s: NonceState, eid: u32, lo: nat, hi: nat): map<(u32, nat), u64> {
    map k | k in s.words && !(k.0 == eid && lo <= k.1 < hi) :: s.words[k]
  }

  function PrunedFloor(s: NonceState, eid: u32): nat {
    var lo := s.Floor(eid) / 64;
    FirstGap(s, eid, lo, lo + MAX_PRUNE_WORDS_PER_CALL) * 64
  }

  /** `prune_nonce_words`; `None` is the overflow trap of `word * 64`. */
  function PruneNonceWords(s: NonceState, eid: u32): Option<NonceState> {
    var floor := PrunedFloor(s, eid);
    if floor >= U64_LIMIT then None
    else Some(NonceState(DropWords(s, eid, s.Floor(eid) / 64, floor / 64),
                         if floor > s.Floor(eid) then s.floors[eid := floor] else s.floors))
  }

  // --- One step -------------------------------------------------------------

  /** `accept_nonce` succeeds exactly on a nonzero nonce not consumed before. */
  lemma AcceptIffNotConsumed(s: NonceState, eid: u32, nonce: u64)
    ensures AcceptNonce(s, eid, nonce).Some? <==> nonce >= 1 && !Consumed(s, eid, nonce)
  {
  }

  /** A success consumes that nonce and no other, on that eid and no other. */
  lemma AcceptConsumes(s: NonceState, eid: u32, nonce: u64, e: u32, n: u64)
    requires AcceptNonce(s, eid, nonce).Some?
    ensures Consumed(AcceptNonce(s, eid, nonce).value, e, n) <==> Consumed(s, e, n) || (e == eid && n == nonce)
  {
    var w := s.Word(eid, nonce / 64);
    if e == eid && n / 64 == nonce / 64 {
      SetBitSets(w, nonce % 64, n % 64);
      assert n == (n / 64) * 64 + n % 64;
    }
  }

  lemma AcceptKeepsInv(s: NonceState, eid: u32, nonce: u64)
    requires NonceInv(s) && AcceptNonce(s, eid, nonce).Some?
    ensures NonceInv(AcceptNonce(s, eid, nonce).value)
  {
    var s' := AcceptNonce(s, eid, nonce).value;
    var w := nonce / 64;
    assert s.Floor(eid) % 64 == 0;
    assert s.Floor(eid) <= w * 64;
    if w == 0 {
      NoBits(0);
      SetBitSets(s.Word(eid, 0), nonce % 64, 0);
    }
    forall k <- s'.words ensures s'.Floor(k.0) <= k.1 * 64 < U64_LIMIT {
      if k == (eid, w) { } else { assert k in s.words; }
    }
  }

  lemma CompleteWordConsumed(s: NonceState, eid: u32, n: u64)
    requires n >= 1 && IsComplete(s, eid, n / 64)
    ensures Consumed(s, eid, n)
  {
    FullBits(n % 64);
  }

  /** The words between the two floors, and only they, go. */
  lemma PrunedRange(s: NonceState, eid: u32)
    requires NonceInv(s)
    ensures s.Floor(eid) <= PrunedFloor(s, eid) <= s.Floor(eid) + MAX_PRUNE_WORDS_PER_CALL * 64
    ensures PrunedFloor(s, eid) % 64 == 0 && s.Floor(eid) % 64 == 0
    ensures forall w :: s.Floor(eid) / 64 <= w < PrunedFloor(s, eid) / 64 ==> IsComplete(s, eid, w)
  {
  }

  lemma PrunedState(s: NonceState, eid: u32, e: u32, w: nat)
    requires NonceInv(s) && PruneNonceWords(s, eid).Some?
    ensures var s' := PruneNonceWords(s, eid).value;
      && s'.Floor(e) == (if e == eid then PrunedFloor(s, eid) else s.Floor(e))
      && s'.Word(e, w) == (if e == eid && s.Floor(eid) / 64 <= w < PrunedFloor(s, eid) / 64 then 0 else s.Word(e, w))
  {
    hide FirstGap;
    PrunedRange(s, eid);
  }

  /** Pruning deletes words and moves the floor without changing what is consumed. */
  lemma PruneKeepsConsumed(s: NonceState, eid: u32, e: u32, n: u64)
    requires NonceInv(s) && PruneNonceWords(s, eid).Some?
    ensures Consumed(PruneNonceWords(s, eid).value, e, n) <==> Consumed(s, e, n)
  {
    hide PrunedFloor, PruneNonceWords, BitSet;
    PrunedRange(s, eid);
    PrunedState(s, eid, e, n / 64);
    if n >= 1 && e == eid && s.Floor(eid) <= n < PrunedFloor(s, eid) {
      assert s.Floor(eid) / 64 <= n / 64 < PrunedFloor(s, eid) / 64;
      CompleteWordConsumed(s, eid, n);
    }
  }

  /** Floors are multiples of 64 and only grow; no stored word lies below one. */
  lemma PruneKeepsInv(s: NonceState, eid: u32)
    requires NonceInv(s) && PruneNonceWords(s, eid).Some?
    ensures var s' := PruneNonceWords(s, eid).value;
      NonceInv(s') && forall e :: s'.Floor(e) >= s.Floor(e)
  {
    hide PrunedFloor, BitSet;
    var s' := PruneNonceWords(s, eid).value;
    PrunedRange(s, eid);
    forall e ensures s'.Floor(e) >= s.Floor(e) { PrunedState(s, eid, e, 0); }
    forall k <- s'.words ensures s'.Floor(k.0) <= k.1 * 64 < U64_LIMIT {
      assert k in s.words;
      assert s.Floor(k.0) <= k.1 * 64 < U64_LIMIT;
    }
  }

  /** Below its 256-word budget, pruning stops only at a word with a nonce still to come. */
  lemma PruneStopsAtGap(s: NonceState, eid: u32)
    requires NonceInv(s) && PruneNonceWords(s, eid).Some?
    requires PrunedFloor(s, eid) < s.Floor(eid) + MAX_PRUNE_WORDS_PER_CALL * 64
    ensures exists n: u64 :: n >= 1 && PrunedFloor(s, eid) <= n < PrunedFloor(s, eid) + 64 && !Consumed(s, eid, n)
  {
    var f := PrunedFloor(s, eid);
    var w := f / 64;
    PrunedRange(s, eid);
    assert !IsComplete(s, eid, w);
    hide PrunedFloor, FirstGap, BitSet, DropWords;
    var x := s.Word(eid, w);
    if forall n: u64 :: n >= 1 && f <= n < f + 64 ==> Consumed(s, eid, n) {
      forall k | 0 <= k < 64 && f + k >= 1 ensures BitSet(x, k) {
        var n: u64 := f + k;
        assert Consumed(s, eid, n) && n / 64 == w && n % 64 == k;
      }
      NoBits(0);
      if w == 0 { AllButFirst(x); } else { AllBitsFull(x); }
      assert false;
    }
  }

  // --- Whole runs -------------------------------------------------------------

  datatype NonceOp = Accept(eid: u32, nonce: u64) | Prune(eid: u32)

  /** A failed call leaves storage as it was. */
  function Apply(s: NonceState, op: NonceOp): NonceState {
    match op
    case Accept(eid, nonce) => AcceptNonce(s, eid, nonce).UnwrapOr(s)
    case Prune(eid) => PruneNonceWords(s, eid).UnwrapOr(s)
  }

  function Run(ops: seq<NonceOp>): NonceState {
    if ops == [] then EMPTY else Apply(Run(ops[..|ops| - 1]), ops[|ops| - 1])
  }

  lemma {:induction false} RunKeepsInv(ops: seq<NonceOp>)
    ensures NonceInv(Run(ops))
  {
    if ops != [] {
      var init, op := ops[..|ops| - 1], ops[|ops| - 1];
      RunKeepsInv(init);
      match op
      case Accept(eid, nonce) =>
        if AcceptNonce(Run(init), eid, nonce).Some? { AcceptKeepsInv(Run(init), eid, nonce); }
      case Prune(eid) =>
        if PruneNonceWords(Run(init), eid).Some? { PruneKeepsInv(Run(init), eid); }
    }
  }

  /** The bitmap, floor and pruning together are a plain set of the nonces ever offered. */
  lemma {:induction false} RunIsSet(ops: seq<NonceOp>, e: u32, n: u64)
    ensures Consumed(Run(ops), e, n) <==> n >= 1 && Accept(e, n) in ops
  {
    if ops == [] {
      NoBits(n % 64);
    } else {
      var init, op := ops[..|ops| - 1], ops[|ops| - 1];
      RunIsSet(init, e, n);
      RunKeepsInv(init);
      assert ops == init + [op];
      match op
      case Accept(eid, nonce) =>
        if AcceptNonce(Run(init), eid, nonce).Some? { AcceptConsumes(Run(init), eid, nonce, e, n); }
      case Prune(eid) =>
        if PruneNonceWords(Run(init), eid).Some? { PruneKeepsConsumed(Run(init), eid, e, n); }
    }
  }

  /** After any run, a nonce is accepted exactly if it is nonzero and was never offered for that eid. */
  lemma AcceptedExactlyOnce(ops: seq<NonceOp>, eid: u32, nonce: u64)
    ensures AcceptNonce(Run(ops), eid, nonce).Some? <==> nonce >= 1 && Accept(eid, nonce) !in ops
  {
    RunIsSet(ops, eid, nonce);
    AcceptIffNotConsumed(Run(ops), eid, nonce);
  }

  /** Everything below a floor has been offered, and floors never go back. */
  lemma {:induction false} FloorHistory(ops: seq<NonceOp>, i: nat, eid: u32, n: u64)
    requires i <= |ops|
    ensures Run(ops[..i]).Floor(eid) <= Run(ops).Floor(eid)
    ensures 1 <= n < Run(ops).Floor(eid) ==> Accept(eid, n) in ops
  {
    RunIsSet(ops, eid, n);
    FloorGrows(ops, i, eid);
  }

  lemma {:induction false} FloorGrows(ops: seq<NonceOp>, i: nat, eid: u32)
    requires i <= |ops|
    ensures Run(ops[..i]).Floor(eid) <= Run(ops).Floor(eid)
  {
    if i == |ops| {
      assert ops[..i] == ops;
    } else {
      var init, op := ops[..|ops| - 1], ops[|ops| - 1];
      FloorGrows(init, i, eid);
      assert init[..i] == ops[..i];
      RunKeepsInv(init);
      if op.Prune? && PruneNonceWords(Run(init), op.eid).Some? { PruneKeepsInv(Run(init), op.eid); }
    }
  }
}
