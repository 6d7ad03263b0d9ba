/**
 * Positional numerals: the meaning of a big-endian byte string, and of a base32
 * string, is the one natural number both of them spell.
 */
module Radix {
  import opened Arithmetic
  import opened Prelude

  type Base = b: int | 2 <= b witness 2

  ghost predicate Digits(base: Base, s: seq<int>) {
    forall i :: 0 <= i < |s| ==> 0 <= s[i] < base
  }

  /** The number spelled by `s`, most significant digit first. */
  function Num(base: Base, s: seq<int>): int {
    if s == [] then 0 else Num(base, s[..|s| - 1]) * base + s[|s| - 1]
  }

  /** `n` written with exactly `len` digits (higher digits are dropped). */
  function ToDigits(base: Base, n: nat, len: nat): (s: seq<int>)
    ensures |s| == len
    ensures forall i :: 0 <= i < len ==> 0 <= s[i] < base
  {
    if len == 0 then [] else ToDigits(base, n / base, len - 1) + [n % base]
  }

  function Pow(base: int, e: nat): (p: int)
    ensures base > 0 ==> p > 0
  {
    if e == 0 then 1
    else
      assert base > 0 ==> Pow(base, e - 1) * base > 0 by {
        if base > 0 { MulMono(1, Pow(base, e - 1), base); }
      }
      Pow(base, e - 1) * base
  }

  lemma NumSnoc(base: Base, s: seq<int>, d: int)
    ensures Num(base, s + [d]) == Num(base, s) * base + d
  {
    assert (s + [d])[..|s|] == s;
  }

  lemma {:induction false} NumBound(base: Base, s: seq<int>)
    requires Digits(base, s)
    ensures 0 <= Num(base, s) < Pow(base, |s|)
  {
    if s != [] {
      var init := s[..|s| - 1];
      NumBound(base, init);
      assert Num(base, init) * base + base <= Pow(base, |init|) * base by {
        MulMono(Num(base, init) + 1, Pow(base, |init|), base);
      }
      MulMono(0, Num(base, init), base);
    }
  }

  /** Equal numbers of equal width have equal digits. */
  lemma {:induction false} NumInjective(base: Base, a: seq<int>, b: seq<int>)
    requires |a| == |b| && Digits(base, a) && Digits(base, b)
    requires Num(base, a) == Num(base, b)
    ensures a == b
  {
    if a != [] {
      var m := |a| - 1;
      DivModUnique(Num(base, a), Num(base, a[..m]), a[m], base);
      DivModUnique(Num(base, a), Num(base, b[..m]), b[m], base);
      NumInjective(base, a[..m], b[..m]);
      assert a == a[..m] + [a[m]] && b == b[..m] + [b[m]];
    }
  }

  /** `ToDigits` is the inverse of `Num` on numbers that fit. */
  lemma {:induction false} NumToDigits(base: Base, n: nat, len: nat)
    requires n < Pow(base, len)
    ensures Num(base, ToDigits(base, n, len)) == n
  {
    if len != 0 {
      assert n == (n / base) * base + n % base;
      if n / base >= Pow(base, len - 1) { MulMono(Pow(base, len - 1), n / base, base); }
      NumToDigits(base, n / base, len - 1);
      NumSnoc(base, ToDigits(base, n / base, len - 1), n % base);
    }
  }

  lemma {:induction false} ToDigitsNum(base: Base, s: seq<int>)
    requires Digits(base, s)
    ensures 0 <= Num(base, s)
    ensures ToDigits(base, Num(base, s), |s|) == s
  {
    NumBound(base, s);
    NumToDigits(base, Num(base, s), |s|);
    NumInjective(base, ToDigits(base, Num(base, s), |s|), s);
  }

  lemma {:induction false} PowAdd(base: int, a: nat, b: nat)
    ensures Pow(base, a + b) == Pow(base, a) * Pow(base, b)
  {
    if b != 0 {
      PowAdd(base, a, b - 1);
      assert Pow(base, a + b) == Pow(base, a + (b - 1)) * base;
    }
  }

  /** A power of a power of two is a power of two. */
  lemma {:induction false} PowOfPow2(base: Base, width: nat, e: nat)
    requires base == Pow(2, width)
    ensures Pow(base, e) == Pow(2, width * e)
  {
    if e != 0 {
      PowOfPow2(base, width, e - 1);
      PowAdd(2, width * (e - 1), width);
      assert width * (e - 1) + width == width * e;
    }
  }

  /** Splitting off the first digit. */
  lemma {:induction false} NumFirst(base: Base, s: seq<int>)
    requires s != []
    ensures Num(base, s) == s[0] * Pow(base, |s| - 1) + Num(base, s[1..])
  {
    var m := |s| - 1;
    if m == 0 {
      assert s[..0] == [] && s[1..] == [];
      assert Num(base, s) == Num(base, s[..0]) * base + s[0];
    } else {
      NumFirst(base, s[..m]);
      assert s == s[..m] + [s[m]] && s[1..] == s[..m][1..] + [s[m]];
      NumSnoc(base, s[..m], s[m]);
      NumSnoc(base, s[..m][1..], s[m]);
      Regroup(s[0], Pow(base, m - 1), Num(base, s[..m][1..]), base, s[m]);
    }
  }

  lemma Regroup(a: int, p: int, t: int, base: int, d: int)
    ensures (a * p + t) * base + d == a * (p * base) + (t * base + d)
  {
  }

  lemma Pow64()
    ensures Pow(2, 64) == U64_LIMIT
  {
    assert Pow(2, 4) == 16 by { assert Pow(2, 2) == 4; PowAdd(2, 2, 2); }
    PowAdd(2, 4, 4);
    PowAdd(2, 8, 8);
    PowAdd(2, 16, 16);
    PowAdd(2, 32, 32);
  }
}
