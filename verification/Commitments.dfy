/** Fill commitments per asset (inventory.ts): an active bucket, and one held until the next tick. */
module Commitments {
  import opened Prelude

  type Asset = string

  datatype Ledger = Ledger(reserved: map<Asset, nat>, held: map<Asset, nat>) {
    function Active(a: Asset): nat {
      if a in reserved then reserved[a] else 0
    }

    function Held(a: Asset): nat {
      if a in held then held[a] else 0
    }

    /** `reservedFor`. */
    function Committed(a: Asset): nat {
      Active(a) + Held(a)
    }
  }

  const NOTHING := Ledger(map[], map[])

  function Reserve(l: Ledger, a: Asset, amount: nat): Ledger {
    l.(reserved := l.reserved[a := l.Active(a) + amount])
  }

  /** The clamp: releasing more than is reserved leaves nothing. */
  function Release(l: Ledger, a: Asset, amount: nat): Ledger {
    var next := if l.Active(a) > amount then l.Active(a) - amount else 0;
    l.(reserved := if next == 0 then l.reserved - {a} else l.reserved[a := next])
  }

  function Hold(l: Ledger, a: Asset, amount: nat): Ledger {
    var r := Release(l, a, amount);
    r.(held := r.held[a := r.Held(a) + amount])
  }

  function FlushHeld(l: Ledger): Ledger {
    l.(held := map[])
  }

  /** A reservation taken and released, or held, is as if it had been put straight where it ends. */
  lemma ReserveThenRelease(l: Ledger, a: Asset, amount: nat)
    requires l.reserved == map[]
    ensures Reserve(l, a, amount).Active(a) == amount
    ensures Release(Reserve(l, a, amount), a, amount) == l
    ensures Hold(Reserve(l, a, amount), a, amount) == l.(held := l.held[a := l.Held(a) + amount])
  {
  }
}
