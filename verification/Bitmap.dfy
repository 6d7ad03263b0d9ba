/**
 * 64-bit words as sets of bit positions. With a one-bit mask `1 << k`, `word & mask`
 * is bit `k` and `word |= mask` on a clear bit is addition of `2^k`.
 */
module Bitmap {
  import opened Arithmetic
  import opened Prelude
  import opened Radix

  const FULL: u64 := U64_LIMIT - 1

  predicate BitSet(w: u64, k: nat)
    requires k < 64
  {
    (w / Pow(2, k)) % 2 == 1
  }

  /** Splitting `2^64` at bit `k`. */
  lemma SplitAt(k: nat)
    requires k < 64
    ensures Pow(2, k) * 2 == Pow(2, k + 1) && Pow(2, k + 1) * Pow(2, 63 - k) == U64_LIMIT
  {
    Pow64();
    PowAdd(2, k + 1, 63 - k);
  }

  /** Adding `p` where the bit of weight `p` is clear stays inside its block of `2p`. */
  lemma AddBelow(w: nat, p: int, m: int)
    requires p > 0 && m > 0 && (w / p) % 2 == 0
    ensures p * 2 * m > 0
    ensures (w + p) / (p * 2 * m) == w / (p * 2 * m)
  {
    var b := p * 2;
    var d := b * m;
    MulMono(1, m, b);
    ModSplit(w, p, 2);
    assert w % b < p;
    var q, r := w / d, w % d;
    ModSplit(w, b, m);
    var a := (w / b) % m;
    assert r == a * b + w % b;
    assert a * b + b <= d by { MulMono(a + 1, m, b); }
    DivModUnique(w + p, q, r + p, d);
  }

  lemma SetBitFits(w: u64, k: nat)
    requires k < 64 && !BitSet(w, k)
    ensures w + Pow(2, k) < U64_LIMIT
  {
    SplitAt(k);
    AddBelow(w, Pow(2, k), Pow(2, 63 - k));
    assert (w + Pow(2, k)) / U64_LIMIT == 0;
  }

  function SetBit(w: u64, k: nat): u64
    requires k < 64 && !BitSet(w, k)
  {
    SetBitFits(w, k);
    w + Pow(2, k)
  }

  /** Adding an even multiple of `t` leaves the bit of weight `t` alone. */
  lemma AddAbove(w: nat, t: int, h: int)
    requires t > 0
    ensures ((w + t * (h * 2)) / t) % 2 == (w / t) % 2
  {
    var q := w / t + h * 2;
    assert w + t * (h * 2) == q * t + w % t by {
      assert q * t == (w / t) * t + (h * 2) * t;
    }
    DivModUnique(w + t * (h * 2), q, w % t, t);
  }

  /** `word |= bit` adds exactly one position. */
  lemma SetBitSets(w: u64, k: nat, j: nat)
    requires k < 64 && j < 64 && !BitSet(w, k)
    ensures BitSet(SetBit(w, k), j) <==> BitSet(w, j) || j == k
  {
    var p := Pow(2, k);
    if j == k {
      hide Pow;
      DivModUnique(w + p, w / p + 1, w % p, p);
    } else if j < k {
      PowAdd(2, j, k - j);
      assert Pow(2, k - j) == Pow(2, k - j - 1) * 2;
      hide Pow;
      AddAbove(w, Pow(2, j), Pow(2, k - j - 1));
    } else {
      PowAdd(2, k + 1, j - k - 1);
      assert Pow(2, k + 1) == p * 2;
      hide Pow;
      AddBelow(w, p, Pow(2, j - k - 1));
    }
  }

  lemma NoBits(k: nat)
    requires k < 64
    ensures !BitSet(0, k)
  {
    DivModUnique(0, 0, 0, Pow(2, k));
  }

  lemma FullBits(k: nat)
    requires k < 64
    ensures BitSet(FULL, k)
    ensures BitSet(FULL - 1, k) <==> k != 0
  {
    SplitAt(k);
    var p, m := Pow(2, k), Pow(2, 63 - k);
    assert U64_LIMIT == (2 * m) * p by { assert p * 2 * m == (2 * m) * p; }
    DivModUnique(FULL, 2 * m - 1, p - 1, p);
    if k == 0 {
      assert p == 1;
    } else {
      assert p == Pow(2, k - 1) * 2;
      DivModUnique(FULL - 1, 2 * m - 1, p - 2, p);
    }
  }

  lemma {:induction false} LowBitsSet(w: u64, n: nat)
    requires n <= 64 && forall k :: 0 <= k < n ==> BitSet(w, k)
    ensures w % Pow(2, n) == Pow(2, n) - 1
  {
    if n != 0 {
      LowBitsSet(w, n - 1);
      ModSplit(w, Pow(2, n - 1), 2);
      assert BitSet(w, n - 1);
    }
  }

  /** A word that has every bit is the all-ones word. */
  lemma AllBitsFull(w: u64)
    requires forall k :: 0 <= k < 64 ==> BitSet(w, k)
    ensures w == FULL
  {
    Pow64();
    LowBitsSet(w, 64);
  }

  /** With bit 0 out of use, the complete word is all-ones less one. */
  lemma AllButFirst(w: u64)
    requires !BitSet(w, 0) && forall k :: 1 <= k < 64 ==> BitSet(w, k)
    ensures w == FULL - 1
  {
    var v := SetBit(w, 0);
    assert v == w + 1;
    forall k | 0 <= k < 64 ensures BitSet(v, k) {
      SetBitSets(w, 0, k);
    }
    AllBitsFull(v);
  }
}
