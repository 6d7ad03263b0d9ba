/** The source-chain classes of test/mocks.ts, proved against module Escrow. */
module Mocks {
  import opened Prelude
  import opened Escrow

  class MockERC20 {
    var balances: map<Holder, nat>

    constructor ()
      ensures balances == map[]
    {
      balances := map[];
    }

    method Mint(address: Holder, amount: nat)
      modifies this
      ensures forall who: Holder ::
        Escrow.BalanceOf(balances, who) == Escrow.BalanceOf(old(balances), who) + if who == address then amount else 0
      ensures Supply(balances) == Supply(old(balances)) + amount
    {
      SupplyUpdate(balances, address, Escrow.BalanceOf(balances, address) + amount);
      balances := balances[address := Escrow.BalanceOf(balances, address) + amount];
    }

    method Transfer(from: Holder, to: Holder, amount: nat) returns (r: Result<(), EscrowError>)
      modifies this
      ensures match Escrow.Transfer(old(balances), from, to, amount)
        case Ok(b) => r == Ok(()) && balances == b
        case Err(e) => r == Err(e) && balances == old(balances)
      ensures Supply(balances) == Supply(old(balances))
    {
      if Escrow.Transfer(balances, from, to, amount).Ok? { TransferKeepsSupply(balances, from, to, amount); }
      var fromBalance := Escrow.BalanceOf(balances, from);
      if fromBalance < amount { return Err(InsufficientBalance); }
      balances := balances[from := fromBalance - amount];
      var toBalance := Escrow.BalanceOf(balances, to);
      balances := balances[to := toBalance + amount];
      r := Ok(());
    }
  }

  class MockEscrow {
    const token: MockERC20
    const contractAddress: Holder
    const confirmationGrace: nat
    var locks: map<Word, LockRecord>
    var released: set<Word>
    var refunded: set<Word>
    ghost var order: seq<Word>
    ghost var payouts: seq<Payout>

    ghost function View(): EscrowState
      reads this, token
    {
      EscrowState(contractAddress, locks, order, released, refunded, token.balances, payouts)
    }

    /** Nothing is written before the last check that can fail, so a failure changes nothing. */
    twostate predicate Agrees(new r: Result<(), EscrowError>, spec: Result<EscrowState, EscrowError>)
      reads this, token
    {
      match spec
      case Ok(s) => r == Ok(()) && View() == s
      case Err(e) => r == Err(e) && View() == old(View())
    }

    constructor (token: MockERC20, contractAddress: Holder, confirmationGrace: nat)
      ensures this.token == token && this.confirmationGrace == confirmationGrace
      ensures View() == EscrowState(contractAddress, map[], [], {}, {}, token.balances, [])
    {
      this.token, this.contractAddress, this.confirmationGrace := token, contractAddress, confirmationGrace;
      locks, released, refunded, order, payouts := map[], {}, {}, [], [];
    }

    method Lock(user: Holder, amount: nat, deadline: nat, h: Word, solver: Holder) returns (r: Result<(), EscrowError>)
      modifies this, token
      ensures Agrees(r, Escrow.Lock(old(View()), h, user, solver, amount, deadline))
    {
      if h in locks { return Err(AlreadyLocked); }
      var _ :- token.Transfer(user, contractAddress, amount);
      locks := locks[h := LockRecord(user, solver, amount, deadline)];
      order := order + [h];
      r := Ok(());
    }

    method LzReceive(h: Word, solverEvm: Holder, amount: nat) returns (r: Result<(), EscrowError>)
      modifies this, token
      ensures Agrees(r, Release(old(View()), h, solverEvm, amount))
    {
      if h !in locks { return Err(IntentNotFound); }
      if h in released || h in refunded { return Err(AlreadyFinalized); }
      var _ :- token.Transfer(contractAddress, solverEvm, amount);
      payouts := payouts + [Payout(h, solverEvm, amount)];
      released := released + {h};
      r := Ok(());
    }

    method LzReceiveCancel(h: Word) returns (r: Result<(), EscrowError>)
      modifies this, token
      ensures Agrees(r, Refund(old(View()), h))
    {
      if h !in locks { return Err(IntentNotFound); }
      if h in released || h in refunded { return Err(AlreadyFinalized); }
      var lock := locks[h];
      var _ :- token.Transfer(contractAddress, lock.user, lock.amount);
      payouts := payouts + [Payout(h, lock.user, lock.amount)];
      refunded := refunded + {h};
      r := Ok(());
    }

    method CancelExpired(h: Word, now: nat) returns (r: Result<(), EscrowError>)
      modifies this, token
      ensures Agrees(r, Escrow.CancelExpired(old(View()), h, now, confirmationGrace))
    {
      if h !in locks { return Err(IntentNotFound); }
      if h in released || h in refunded { return Err(AlreadyFinalized); }
      var lock := locks[h];
      if now < lock.deadline + confirmationGrace { return Err(DeadlineNotPassed); }
      var _ :- token.Transfer(contractAddress, lock.user, lock.amount);
      payouts := payouts + [Payout(h, lock.user, lock.amount)];
      refunded := refunded + {h};
      r := Ok(());
    }
  }
}
