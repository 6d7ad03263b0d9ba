/** The source-chain half of the protocol: locks, releases and refunds over a token with balances. */
module Escrow {
  import opened Prelude
  import Types

  type Word = Types.Word

  /** A token holder on the source chain. */
  type Holder = seq<byte>

  datatype LockRecord = LockRecord(user: Holder, solver: Holder, amount: nat, deadline: nat)

  /** A transfer out of the escrow, for one intent. */
  datatype Payout = Payout(intentHash: Word, to: Holder, amount: nat)

  datatype EscrowError = AlreadyLocked | InsufficientBalance | IntentNotFound | AlreadyFinalized | DeadlineNotPassed

  /** `order` is the insertion order of the lock map; `payouts` what the token moved out. */
  datatype EscrowState = EscrowState(
    holder: Holder,
    locks: map<Word, LockRecord>,
    order: seq<Word>,
    released: set<Word>,
    refunded: set<Word>,
    balances: map<Holder, nat>,
    payouts: seq<Payout>)

  function BalanceOf(b: map<Holder, nat>, who: Holder): nat {
    if who in b then b[who] else 0
  }

  function Transfer(b: map<Holder, nat>, from: Holder, to: Holder, amount: nat): Result<map<Holder, nat>, EscrowError> {
    if BalanceOf(b, from) < amount then Err(InsufficientBalance)
    else
      var debited := b[from := BalanceOf(b, from) - amount];
      Ok(debited[to := BalanceOf(debited, to) + amount])
  }

  function Lock(s: EscrowState, h: Word, user: Holder, solver: Holder, amount: nat, deadline: nat): Result<EscrowState, EscrowError> {
    if h in s.locks then Err(AlreadyLocked)
    else
      var b :- Transfer(s.balances, user, s.holder, amount);
      Ok(s.(balances := b, locks := s.locks[h := LockRecord(user, solver, amount, deadline)], order := s.order + [h]))
  }

  predicate IsFinal(s: EscrowState, h: Word) {
    h in s.released || h in s.refunded
  }

  function Pay(s: EscrowState, h: Word, to: Holder, amount: nat): Result<EscrowState, EscrowError> {
    var b :- Transfer(s.balances, s.holder, to, amount);
    Ok(s.(balances := b, payouts := s.payouts + [Payout(h, to, amount)]))
  }

  /** `lzReceive`: a FillConfirmed pays the solver. */
  function Release(s: EscrowState, h: Word, solver: Holder, amount: nat): Result<EscrowState, EscrowError> {
    if h !in s.locks then Err(IntentNotFound)
    else if IsFinal(s, h) then Err(AlreadyFinalized)
    else
      var s1 :- Pay(s, h, solver, amount);
      Ok(s1.(released := s1.released + {h}))
  }

  /** `lzReceiveCancel`: a CancelIntent refunds the user. */
  function Refund(s: EscrowState, h: Word): Result<EscrowState, EscrowError> {
    if h !in s.locks then Err(IntentNotFound)
    else if IsFinal(s, h) then Err(AlreadyFinalized)
    else
      var s1 :- Pay(s, h, s.locks[h].user, s.locks[h].amount);
      Ok(s1.(refunded := s1.refunded + {h}))
  }

  /** `cancelExpired`: the local timeout, open from the deadline plus the grace period. */
  function CancelExpired(s: EscrowState, h: Word, now: nat, grace: nat): Result<EscrowState, EscrowError> {
    if h !in s.locks then Err(IntentNotFound)
    else if IsFinal(s, h) then Err(AlreadyFinalized)
    else if now < s.locks[h].deadline + grace then Err(DeadlineNotPassed)
    else Refund(s, h)
  }

  // --- The token's supply -----------------------------------------------------------

  /** All the tokens there are. */
  ghost function Supply(b: map<Holder, nat>): nat {
    if b == map[] then 0
    else
      var who :| who in b;
      b[who] + Supply(b - {who})
  }

  lemma {:induction false} SupplyAt(b: map<Holder, nat>, who: Holder)
    requires who in b
    ensures Supply(b) == b[who] + Supply(b - {who})
    decreases |b|
  {
    var first :| first in b && Supply(b) == b[first] + Supply(b - {first});
    if first != who {
      assert (b - {first}).Keys == b.Keys - {first} && (b - {who}).Keys == b.Keys - {who};
      assert |(b - {first}).Keys| == |b - {first}| && |(b - {who}).Keys| == |b - {who}|;
      SupplyAt(b - {first}, who);
      SupplyAt(b - {who}, first);
      assert b - {first} - {who} == b - {who} - {first};
    }
  }

  /** Setting one balance changes the supply by the difference. */
  lemma {:induction false} SupplyUpdate(b: map<Holder, nat>, who: Holder, amount: nat)
    ensures Supply(b[who := amount]) == Supply(b) - BalanceOf(b, who) + amount
  {
    SupplyAt(b[who := amount], who);
    if who in b {
      SupplyAt(b, who);
      assert b[who := amount] - {who} == b - {who};
    } else {
      assert b[who := amount] - {who} == b;
    }
  }

  /** A transfer moves tokens and makes none. */
  lemma {:induction false} TransferKeepsSupply(b: map<Holder, nat>, from: Holder, to: Holder, amount: nat)
    requires Transfer(b, from, to, amount).Ok?
    ensures Supply(Transfer(b, from, to, amount).value) == Supply(b)
  {
    var debited := b[from := BalanceOf(b, from) - amount];
    SupplyUpdate(b, from, BalanceOf(b, from) - amount);
    SupplyUpdate(debited, to, BalanceOf(debited, to) + amount);
  }

  // --- When each call succeeds, and who is paid ------------------------------------------

  /** What a transfer adds to one account. */
  function Moved(from: Holder, to: Holder, amount: nat, who: Holder): int {
    (if who == to then amount else 0) - (if who == from then amount else 0)
  }

  /** A transfer succeeds exactly if the sender has the amount, and moves it from one account to the other. */
  lemma TransferExactly(b: map<Holder, nat>, from: Holder, to: Holder, amount: nat, who: Holder)
    ensures Transfer(b, from, to, amount).Ok? <==> amount <= BalanceOf(b, from)
    ensures Transfer(b, from, to, amount).Ok? ==>
      BalanceOf(Transfer(b, from, to, amount).value, who) == BalanceOf(b, who) + Moved(from, to, amount, who)
  {
  }

  /** Only balances, payouts and one marker differ, and the payee has the amount. */
  predicate PaidOut(s: EscrowState, t: EscrowState, h: Word, to: Holder, amount: nat, who: Holder) {
    && t == s.(balances := t.balances, payouts := s.payouts + [Payout(h, to, amount)], released := t.released, refunded := t.refunded)
    && BalanceOf(t.balances, who) == BalanceOf(s.balances, who) + Moved(s.holder, to, amount, who)
  }

  lemma LockExactly(s: EscrowState, h: Word, user: Holder, solver: Holder, amount: nat, deadline: nat, who: Holder)
    ensures var r := Lock(s, h, user, solver, amount, deadline);
      && (r.Ok? <==> h !in s.locks && amount <= BalanceOf(s.balances, user))
      && (r.Ok? ==>
            && r.value.locks == s.locks[h := LockRecord(user, solver, amount, deadline)]
            && BalanceOf(r.value.balances, who) == BalanceOf(s.balances, who) + Moved(user, s.holder, amount, who))
  {
    TransferExactly(s.balances, user, s.holder, amount, who);
    hide Transfer;
  }

  lemma ReleaseExactly(s: EscrowState, h: Word, solver: Holder, amount: nat, who: Holder)
    ensures var r := Release(s, h, solver, amount);
      && (r.Ok? <==> h in s.locks && h !in s.released && h !in s.refunded && amount <= BalanceOf(s.balances, s.holder))
      && (r.Ok? ==> PaidOut(s, r.value, h, solver, amount, who)
                    && r.value.released == s.released + {h} && r.value.refunded == s.refunded)
  {
    TransferExactly(s.balances, s.holder, solver, amount, who);
    hide Transfer;
  }

  lemma RefundExactly(s: EscrowState, h: Word, who: Holder)
    ensures var r := Refund(s, h);
      && (r.Ok? <==> h in s.locks && h !in s.released && h !in s.refunded && s.locks[h].amount <= BalanceOf(s.balances, s.holder))
      && (r.Ok? ==> PaidOut(s, r.value, h, s.locks[h].user, s.locks[h].amount, who)
                    && r.value.refunded == s.refunded + {h} && r.value.released == s.released)
  {
    if h in s.locks { TransferExactly(s.balances, s.holder, s.locks[h].user, s.locks[h].amount, who); }
    hide Transfer;
  }

  lemma CancelExpiredExactly(s: EscrowState, h: Word, now: nat, grace: nat)
    ensures var r := CancelExpired(s, h, now, grace);
      && (r.Ok? <==> h in s.locks && h !in s.released && h !in s.refunded && s.locks[h].deadline + grace <= now
                     && s.locks[h].amount <= BalanceOf(s.balances, s.holder))
      && (r.Ok? ==> r == Refund(s, h))
  {
    RefundExactly(s, h, s.holder);
    hide Refund;
  }

  // --- What the escrow owes ---------------------------------------------------------

  /** The part of `order` still locked, in tokens. */
  function LiveSum(s: EscrowState, order: seq<Word>): nat {
    if order == [] then 0
    else
      var h := order[|order| - 1];
      LiveSum(s, order[..|order| - 1]) + if h in s.locks && !IsFinal(s, h) then s.locks[h].amount else 0
  }

  function PayoutsOf(ps: seq<Payout>, h: Word): seq<Payout> {
    if ps == [] then []
    else
      var p := ps[|ps| - 1];
      PayoutsOf(ps[..|ps| - 1], h) + if p.intentHash == h then [p] else []
  }

  lemma PayoutsSnoc(ps: seq<Payout>, p: Payout, h: Word)
    ensures PayoutsOf(ps + [p], h) == PayoutsOf(ps, h) + if p.intentHash == h then [p] else []
  {
    assert (ps + [p])[..|ps|] == ps;
  }

  ghost predicate InOrder(s: EscrowState) {
    && (forall h: Word :: h in s.order <==> h in s.locks)
    && (forall i, j :: 0 <= i < j < |s.order| ==> s.order[i] != s.order[j])
  }

  predicate SameLock(s: EscrowState, t: EscrowState, h: Word) {
    (h in s.locks && h in t.locks && s.locks[h] == t.locks[h] && IsFinal(s, h) == IsFinal(t, h))
  }

  lemma {:induction false} LiveSumSame(s: EscrowState, t: EscrowState, order: seq<Word>)
    requires forall h <- order :: SameLock(s, t, h)
    ensures LiveSum(s, order) == LiveSum(t, order)
  {
    if order != [] {
      var m := |order| - 1;
      LiveSumSame(s, t, order[..m]);
      assert SameLock(s, t, order[m]);
    }
  }

  predicate LockAdded(e: EscrowState, t: EscrowState, h: Word) {
    && h !in e.locks && !IsFinal(e, h) && h in t.locks && t.locks == e.locks[h := t.locks[h]]
    && t.order == e.order + [h] && t.released == e.released && t.refunded == e.refunded
  }

  lemma {:induction false} LockInOrder(e: EscrowState, t: EscrowState, h: Word)
    requires InOrder(e) && LockAdded(e, t, h)
    ensures InOrder(t)
  {
    forall g: Word ensures g in t.order <==> g in t.locks { }
    forall i, j | 0 <= i < j < |t.order| ensures t.order[i] != t.order[j] {
      assert t.order[i] == e.order[i] && e.order[i] in e.order;
    }
  }

  /** A new lock adds its own amount to what is owed. */
  lemma {:induction false} LockSum(e: EscrowState, t: EscrowState, h: Word)
    requires InOrder(e) && LockAdded(e, t, h)
    ensures LiveSum(t, t.order) == LiveSum(e, e.order) + t.locks[h].amount
  {
    assert (e.order + [h])[..|e.order|] == e.order;
    forall g | g in e.order ensures SameLock(e, t, g) { }
    LiveSumSame(e, t, e.order);
  }

  /** Finalizing one lock takes exactly its amount off the books. */
  lemma {:induction false} LiveSumFinalize(s: EscrowState, t: EscrowState, order: seq<Word>, h: Word)
    requires forall i, j :: 0 <= i < j < |order| ==> order[i] != order[j]
    requires h in order && h in s.locks && !IsFinal(s, h) && IsFinal(t, h)
    requires forall g <- order :: g != h ==> SameLock(s, t, g)
    ensures LiveSum(s, order) == LiveSum(t, order) + s.locks[h].amount
  {
    var m := |order| - 1;
    if order[m] == h {
      assert h !in order[..m];
      LiveSumSame(s, t, order[..m]);
    } else {
      assert SameLock(s, t, order[m]);
      assert order == order[..m] + [order[m]];
      LiveSumFinalize(s, t, order[..m], h);
    }
  }

  lemma {:induction false} LiveSumCovers(s: EscrowState, order: seq<Word>, h: Word)
    requires h in order && h in s.locks && !IsFinal(s, h)
    ensures LiveSum(s, order) >= s.locks[h].amount
  {
    var m := |order| - 1;
    if order[m] != h {
      assert order == order[..m] + [order[m]];
      LiveSumCovers(s, order[..m], h);
    }
  }
}
