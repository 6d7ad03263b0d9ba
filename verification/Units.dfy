/** Amounts as decimal strings (units.ts): parsing to, and printing from, smallest units. */
module Units {
  import opened Arithmetic
  import opened Prelude
  import opened Radix
  import opened Types
  import opened Settlement

  const MAX_DECIMALS := 36

  predicate IsDigit(c: char) {
    '0' <= c <= '9'
  }

  predicate AllDigits(s: string) {
    s != "" && forall i :: 0 <= i < |s| ==> IsDigit(s[i])
  }

  function DigitValue(c: char): int {
    c as int - '0' as int
  }

  function Values(s: string): (q: seq<int>)
    ensures |q| == |s|
  {
    seq(|s|, i requires 0 <= i < |s| => DigitValue(s[i]))
  }

  /** `BigInt` of a string of digits. */
  function Value(s: string): int {
    Num(10, Values(s))
  }

  function Digit(d: int): (c: char)
    requires 0 <= d < 10
    ensures IsDigit(c) && DigitValue(c) == d
  {
    (48 + d) as char
  }

  /** `toString` of a bigint. */
  function Show(n: nat): (s: string)
    ensures AllDigits(s)
  {
    if n < 10 then [Digit(n)] else Show(n / 10) + [Digit(n % 10)]
  }

  function Zeros(n: nat): (s: string)
    ensures |s| == n
  {
    seq(n, _ => '0')
  }

  function PadStart(s: string, width: nat): string {
    if |s| >= width then s else Zeros(width - |s|) + s
  }

  function PadEnd(s: string, width: nat): string {
    if |s| >= width then s else s + Zeros(width - |s|)
  }

  /** `replace(/0+$/, "")`. */
  function StripZeros(s: string): (r: string)
    ensures r <= s && (r == "" || r[|r| - 1] != '0')
    ensures PadEnd(r, |s|) == s
  {
    if s == "" || s[|s| - 1] != '0' then s
    else
      var r := StripZeros(s[..|s| - 1]);
      assert s == s[..|s| - 1] + ['0'];
      r
  }

  function IndexOf(s: string, c: char): (r: Option<nat>)
    ensures r.Some? ==> r.value < |s| && s[r.value] == c && c !in s[..r.value]
    ensures r.None? ==> c !in s
  {
    if s == "" then None
    else if s[0] == c then Some(0)
    else
      match IndexOf(s[1..], c)
      case None => None
      case Some(i) => assert s[..i + 1] == [s[0]] + s[1..][..i]; Some(i + 1)
  }

  /** White space and line terminators as ECMAScript trims them. */
  predicate IsSpace(c: char) {
    || c in {'\t', '\n', '\r', ' '} || c as int in {11, 12, 0xA0, 0x1680, 0x2028, 0x2029, 0x202F, 0x205F, 0x3000, 0xFEFF}
    || 0x2000 <= c as int <= 0x200A
  }

  function Trim(s: string): string {
    if s != "" && IsSpace(s[0]) then Trim(s[1..])
    else if s != "" && IsSpace(s[|s| - 1]) then Trim(s[..|s| - 1])
    else s
  }

  /** The two halves of a decimal number; none if it is not one. */
  function Split(s: string): Option<(string, string)> {
    match IndexOf(s, '.')
    case None => if AllDigits(s) then Some((s, "")) else None
    case Some(k) => if AllDigits(s[..k]) && AllDigits(s[k + 1..]) then Some((s[..k], s[k + 1..])) else None
  }

  lemma DivMod(n: nat, p: int)
    requires p > 0
    ensures 0 <= n / p && 0 <= n % p < p && n == (n / p) * p + n % p
  {
    if n / p < 0 { MulMono(n / p + 1, 0, p); }
  }

  /** Whole units, and what is left in smallest units. */
  function Whole(n: nat, d: nat): nat {
    DivMod(n, Pow(10, d));
    n / Pow(10, d)
  }

  function Part(n: nat, d: nat): (r: nat)
    ensures r < Pow(10, d)
  {
    DivMod(n, Pow(10, d));
    n % Pow(10, d)
  }

  lemma WholeAndPart(n: nat, d: nat)
    ensures n == Whole(n, d) * Pow(10, d) + Part(n, d)
  {
    DivMod(n, Pow(10, d));
  }

  /** The digits after the point, as printed. */
  function Fraction(n: nat, d: nat): string {
    StripZeros(PadStart(Show(Part(n, d)), d))
  }

  /** The two halves put together; an empty fraction counts as nothing. */
  function Raw(whole: string, padded: string, d: nat): int {
    Value(whole) * Pow(10, d) + Value(if padded == "" then "0" else padded)
  }

  /** `toSmallestUnits`; none is a validation error. */
  function ToSmallestUnits(human: string, decimals: int): Option<string> {
    if decimals < 0 || decimals > MAX_DECIMALS then None
    else
      match Split(Trim(human))
      case None => None
      case Some((whole, frac)) =>
        if |frac| > decimals then None
        else
          var raw := Raw(whole, PadEnd(frac, decimals), decimals);
          if raw < 0 then None else Some(Show(raw))
  }

  /** `fromSmallestUnits`; none is a validation error. */
  function FromSmallestUnits(smallest: string, decimals: int): Option<string> {
    if decimals < 0 || decimals > MAX_DECIMALS then None
    else
      var trimmed := Trim(smallest);
      var negative := trimmed != "" && trimmed[0] == '-';
      var digits := if negative then trimmed[1..] else trimmed;
      if !AllDigits(digits) || Value(digits) < 0 then None
      else
        var abs: nat := Value(digits);
        var whole, frac := Show(Whole(abs, decimals)), Fraction(abs, decimals);
        var sign := if negative && (Whole(abs, decimals) != 0 || frac != "") then "-" else "";
        Some(sign + Join(whole, frac))
  }

  function Join(whole: string, frac: string): string {
    if frac != "" then whole + "." + frac else whole
  }

  // --- Numerals ---------------------------------------------------------------------

  lemma DigitsOf(s: string)
    requires forall i :: 0 <= i < |s| ==> IsDigit(s[i])
    ensures Digits(10, Values(s)) && 0 <= Value(s) < Pow(10, |s|)
  {
    NumBound(10, Values(s));
  }

  lemma ValueSnoc(s: string, c: char)
    ensures Value(s + [c]) == Value(s) * 10 + DigitValue(c)
  {
    assert Values(s + [c]) == Values(s) + [DigitValue(c)];
    NumSnoc(10, Values(s), DigitValue(c));
  }

  lemma {:induction false} ShowValue(n: nat)
    ensures Value(Show(n)) == n
  {
    if n < 10 {
      assert Show(n) == "" + [Digit(n)];
      ValueSnoc("", Digit(n));
    } else {
      ShowValue(n / 10);
      ValueSnoc(Show(n / 10), Digit(n % 10));
    }
  }

  lemma {:induction false} ShowLength(n: nat, d: nat)
    requires n < Pow(10, d) && d >= 1
    ensures |Show(n)| <= d
  {
    if n >= 10 {
      ShowLength(n / 10, d - 1);
    }
  }

  lemma {:induction false} LeadingZeros(n: nat, s: string)
    ensures Value(Zeros(n) + s) == Value(s)
  {
    if s == "" {
      ZeroValue(n);
      assert Zeros(n) + "" == Zeros(n);
    } else {
      var m := |s| - 1;
      LeadingZeros(n, s[..m]);
      assert s == s[..m] + [s[m]] && Zeros(n) + s == (Zeros(n) + s[..m]) + [s[m]];
      ValueSnoc(s[..m], s[m]);
      ValueSnoc(Zeros(n) + s[..m], s[m]);
    }
  }

  lemma {:induction false} ZeroValue(n: nat)
    ensures Value(Zeros(n)) == 0
  {
    if n > 0 {
      ZeroValue(n - 1);
      assert Zeros(n) == Zeros(n - 1) + ['0'];
      ValueSnoc(Zeros(n - 1), '0');
    }
  }

  /** The fraction printed with its leading zeros has `d` digits and the same value. */
  lemma PaddedFraction(r: nat, d: nat)
    requires r < Pow(10, d) && d >= 1
    ensures var p := PadStart(Show(r), d); |p| == d && AllDigits(p) && Value(p) == r
  {
    ShowLength(r, d);
    ShowValue(r);
    LeadingZeros(d - |Show(r)|, Show(r));
  }

  lemma {:induction false} NoSpace(s: string)
    requires forall i :: 0 <= i < |s| ==> !IsSpace(s[i])
    ensures Trim(s) == s
  {
  }

  lemma {:induction false} FirstIndex(s: string, c: char, k: nat)
    requires k < |s| && s[k] == c && forall i :: 0 <= i < k ==> s[i] != c
    ensures IndexOf(s, c) == Some(k)
  {
    if k > 0 { FirstIndex(s[1..], c, k - 1); }
  }

  lemma NoDotInDigits(digits: string)
    requires AllDigits(digits)
    ensures IndexOf(digits, '.') == None
  {
    assert forall i :: 0 <= i < |digits| ==> IsDigit(digits[i]);
    assert '.' !in digits;
  }

  lemma {:induction false} DotAfterDigits(whole: string, frac: string)
    requires AllDigits(whole)
    ensures IndexOf(whole + "." + frac, '.') == Some(|whole|)
  {
    var s := whole + "." + frac;
    assert forall i :: 0 <= i < |whole| ==> s[i] == whole[i] && IsDigit(whole[i]);
    FirstIndex(s, '.', |whole|);
  }

  lemma DigitsAreNotSpace(s: string)
    requires forall i :: 0 <= i < |s| ==> IsDigit(s[i]) || s[i] == '.'
    ensures Trim(s) == s
  {
    NoSpace(s);
  }

  /** How a printed amount is read back. */
  lemma SplitPrinted(whole: string, frac: string)
    requires AllDigits(whole) && (frac == "" || AllDigits(frac))
    ensures var s := Join(whole, frac); Trim(s) == s && Split(s) == Some((whole, frac))
  {
    if frac != "" {
      var s := whole + "." + frac;
      DotAfterDigits(whole, frac);
      assert s[..|whole|] == whole && s[|whole| + 1..] == frac;
      DigitsAreNotSpace(s);
    } else {
      NoDotInDigits(whole);
      DigitsAreNotSpace(whole);
    }
  }

  /** The printed form of a number of smallest units. */
  function Printed(n: nat, d: nat): string {
    Join(Show(Whole(n, d)), Fraction(n, d))
  }

  /** A printed fraction fits, and padding it again gives its value back. */
  lemma FractionReads(n: nat, d: nat)
    ensures var f := Fraction(n, d);
      |f| <= d && (f == "" || AllDigits(f)) && Raw(Show(Whole(n, d)), PadEnd(f, d), d) == n
  {
    hide Part, Pow, Show, Value, Whole;
    var p := PadStart(Show(Part(n, d)), d);
    ShowValue(Whole(n, d));
    WholeAndPart(n, d);
    if d == 0 {
      NoPart(n);
    } else {
      PaddedFraction(Part(n, d), d);
    }
  }

  lemma NoPart(n: nat)
    ensures Part(n, 0) == 0 && PadStart(Show(0), 0) == "0" && Value("0") == 0
    ensures StripZeros("0") == ""
  {
    ShowValue(0);
    assert "0"[..0] == "";
  }

  /** Reading a printed amount gives its number back. */
  lemma ReadPrinted(n: nat, d: nat)
    requires d <= MAX_DECIMALS
    ensures ToSmallestUnits(Printed(n, d), d) == Some(Show(n))
  {
    hide Whole, Show, Fraction, Split, Trim, AllDigits, Raw, Join, PadEnd;
    FractionReads(n, d);
    SplitPrinted(Show(Whole(n, d)), Fraction(n, d));
  }

  lemma ShownDigits(n: nat)
    ensures var s := Show(n); Trim(s) == s && s != "" && s[0] != '-' && AllDigits(s) && Value(s) == n
  {
    hide Show, Value, Trim;
    ShowValue(n);
    DigitsAreNotSpace(Show(n));
    assert IsDigit(Show(n)[0]);
  }

  lemma PrintsCanonical(n: nat, d: nat)
    requires d <= MAX_DECIMALS
    ensures FromSmallestUnits(Show(n), d) == Some(Printed(n, d))
  {
    hide Whole, Show, Fraction, Value, Trim, Join, AllDigits;
    ShownDigits(n);
    assert "" + Printed(n, d) == Printed(n, d);
  }

  /** Parsing undoes printing, on every canonical amount and every number of decimals. */
  lemma PrintThenParse(n: nat, d: nat)
    requires d <= MAX_DECIMALS
    ensures FromSmallestUnits(Show(n), d).Some?
    ensures ToSmallestUnits(FromSmallestUnits(Show(n), d).value, d) == Some(Show(n))
  {
    hide *;
    PrintsCanonical(n, d);
    ReadPrinted(n, d);
  }

  /** A sign is printed exactly on what is not zero, in front of the amount without it. */
  lemma NegativePrints(n: nat, d: nat)
    requires d <= MAX_DECIMALS
    ensures FromSmallestUnits("-" + Show(n), d) == Some((if n == 0 then "" else "-") + Printed(n, d))
  {
    hide Whole, Show, Fraction, Value, Trim, Join, AllDigits;
    ShownDigits(n);
    SignedIsTrimmed(n);
    ZeroIffNothing(n, d);
    assert ("-" + Show(n))[1..] == Show(n);
    assert "" + Printed(n, d) == Printed(n, d);
  }

  lemma SignedIsTrimmed(n: nat)
    ensures Trim("-" + Show(n)) == "-" + Show(n)
  {
    NoSpace("-" + Show(n));
  }

  /** Both halves of a printed amount vanish exactly on zero. */
  lemma ZeroIffNothing(n: nat, d: nat)
    ensures n == 0 <==> Whole(n, d) == 0 && Fraction(n, d) == ""
  {
    hide Value, Show, Raw, PadEnd, StripZeros, PadStart;
    if Whole(n, d) == 0 && Fraction(n, d) == "" {
      FractionReads(n, d);
      ShowValue(0);
      NothingIsZero(d);
    }
    if n == 0 { ZeroPrints(d); }
  }

  lemma NothingIsZero(d: nat)
    requires Value(Show(0)) == 0
    ensures Raw(Show(0), PadEnd("", d), d) == 0
  {
    hide Value, Pow;
    ZeroValue(d);
    ZeroValue(1);
    assert "" + Zeros(d) == Zeros(d);
    assert Zeros(1) == "0";
  }

  lemma ZeroPrints(d: nat)
    ensures Whole(0, d) == 0 && Fraction(0, d) == ""
  {
    var p := Pow(10, d);
    DivModUnique(0, 0, 0, p);
    assert Show(0) == "0";
    AllZeros(PadStart(Show(0), d));
  }

  lemma {:induction false} AllZeros(s: string)
    requires forall i :: 0 <= i < |s| ==> s[i] == '0'
    ensures StripZeros(s) == ""
  {
    if s != "" { AllZeros(s[..|s| - 1]); }
  }

  /** What printing accepts: digits, perhaps after a minus sign, white space around them aside. */
  lemma PrintsIff(smallest: string, d: int)
    ensures FromSmallestUnits(smallest, d).Some? <==>
      && 0 <= d <= MAX_DECIMALS
      && exists digits :: AllDigits(digits) && (Trim(smallest) == digits || Trim(smallest) == "-" + digits)
  {
    hide Whole, Show, Fraction, Value, Trim, Join;
    var s := Trim(smallest);
    if digits :| AllDigits(digits) && (s == digits || s == "-" + digits) {
      DigitsOf(digits);
      if s == "-" + digits { assert s[1..] == digits; }
    }
    if s != "" && s[0] == '-' { assert s == "-" + s[1..]; }
  }

  /** What is left of an amount once superfluous zeros are gone on both ends. */
  function Normal(whole: string, frac: string): string
    requires AllDigits(whole) && Value(whole) >= 0
  {
    Join(Show(Value(whole)), StripZeros(frac))
  }

  lemma OneZeroMore(s: string)
    ensures StripZeros(s + "0") == StripZeros(s)
  {
    hide PadEnd;
    var t := s + "0";
    assert t[..|t| - 1] == s;
  }

  lemma {:induction false} StripPadded(s: string, n: nat)
    ensures StripZeros(s + Zeros(n)) == StripZeros(s)
  {
    hide StripZeros, PadEnd;
    if n == 0 {
      assert s + Zeros(0) == s;
    } else {
      assert s + Zeros(n) == (s + Zeros(n - 1)) + "0";
      OneZeroMore(s + Zeros(n - 1));
      StripPadded(s, n - 1);
    }
  }

  lemma SameWidth(a: string, b: string)
    requires |a| == |b| && Value(a) == Value(b)
    requires (forall i :: 0 <= i < |a| ==> IsDigit(a[i])) && (forall i :: 0 <= i < |b| ==> IsDigit(b[i]))
    ensures a == b
  {
    DigitsOf(a);
    DigitsOf(b);
    NumInjective(10, Values(a), Values(b));
    forall i | 0 <= i < |a| ensures a[i] == b[i] {
      assert Values(a)[i] == Values(b)[i];
    }
  }

  lemma PaddingIsZeros(frac: string, d: nat)
    requires |frac| <= d
    ensures PadEnd(frac, d) == frac + Zeros(d - |frac|)
  {
  }

  /** A fraction printed from its padded digits. */
  lemma FractionOfPadded(frac: string, d: nat, r: nat, n: nat)
    requires 0 < d && |frac| <= d && Part(n, d) == r < Pow(10, d)
    requires var p := PadEnd(frac, d); |p| == d && Value(p) == r && forall i :: 0 <= i < d ==> IsDigit(p[i])
    ensures Fraction(n, d) == StripZeros(frac)
  {
    hide Part, Whole, Pow, Value, PadEnd, PadStart, StripZeros, Show, Zeros;
    PaddedFraction(r, d);
    SameWidth(PadStart(Show(r), d), PadEnd(frac, d));
    PaddingIsZeros(frac, d);
    StripPadded(frac, d - |frac|);
  }

  /** The number an accepted amount stands for, split where printing splits it. */
  lemma ParsedParts(whole: string, frac: string, d: nat, n: nat)
    requires AllDigits(whole) && (frac == "" || AllDigits(frac)) && |frac| <= d && Value(whole) >= 0
    requires n == Raw(whole, PadEnd(frac, d), d)
    ensures Whole(n, d) == Value(whole) && Fraction(n, d) == StripZeros(frac)
  {
    hide Part, Whole, Pow, Value, PadStart, Show;
    var padded := PadEnd(frac, d);
    PaddedValue(frac, d);
    var r: nat := Value(if padded == "" then "0" else padded);
    ValueAsParts(n, Value(whole), r, d);
    if d == 0 {
      NoPart(n);
    } else {
      FractionOfPadded(frac, d, r, n);
    }
  }

  lemma ValueAsParts(n: nat, w: nat, r: nat, d: nat)
    requires n == w * Pow(10, d) + r && r < Pow(10, d)
    ensures Whole(n, d) == w && Part(n, d) == r
  {
    hide Pow;
    DivModUnique(n, w, r, Pow(10, d));
  }

  lemma PaddedValue(frac: string, d: nat)
    requires (frac == "" || AllDigits(frac)) && |frac| <= d
    ensures var padded := PadEnd(frac, d);
      && |padded| == d && (forall i :: 0 <= i < d ==> IsDigit(padded[i]))
      && 0 <= Value(if padded == "" then "0" else padded) < Pow(10, d)
  {
    hide Value, Pow;
    var padded := PadEnd(frac, d);
    DigitsOf(padded);
    if d == 0 { NoPart(0); OneUnit(); }
  }

  lemma OneUnit()
    ensures Pow(10, 0) == 1
  {
  }

  /** Printing a parsed amount gives the same number, without the zeros that do not count. */
  lemma ParseThenPrint(human: string, d: nat)
    requires ToSmallestUnits(human, d).Some?
    ensures var (whole, frac) := Split(Trim(human)).value;
      && AllDigits(whole) && Value(whole) >= 0
      && FromSmallestUnits(ToSmallestUnits(human, d).value, d) == Some(Normal(whole, frac))
  {
    hide Value, Pow, Raw, Whole, Fraction, Show, Trim, StripZeros, Split, AllDigits, PadEnd, Join;
    var (whole, frac) := Split(Trim(human)).value;
    SplitShape(Trim(human));
    RawIsNat(whole, frac, d);
    var n: nat := Raw(whole, PadEnd(frac, d), d);
    ParsedParts(whole, frac, d, n);
    PrintsCanonical(n, d);
  }

  lemma SplitShape(s: string)
    requires Split(s).Some?
    ensures var (whole, frac) := Split(s).value; AllDigits(whole) && (frac == "" || AllDigits(frac)) && Value(whole) >= 0
  {
    hide Value;
    DigitsOf(Split(s).value.0);
  }

  lemma RawIsNat(whole: string, frac: string, d: nat)
    requires AllDigits(whole) && (frac == "" || AllDigits(frac)) && |frac| <= d
    ensures Raw(whole, PadEnd(frac, d), d) >= 0
  {
    hide Value, Pow, PadEnd;
    DigitsOf(whole);
    PaddedValue(frac, d);
    Products(Value(whole), Pow(10, d));
  }

  lemma Products(a: nat, b: int)
    requires b > 0
    ensures 0 <= a * b
  {
    MulMono(0, a, b);
  }

  /** What is accepted: digits, and perhaps a point and no more digits than there are decimals, white space around it aside. */
  lemma AcceptsIff(human: string, d: int)
    ensures ToSmallestUnits(human, d).Some? <==>
      && 0 <= d <= MAX_DECIMALS
      && exists whole, frac :: Decimal(Trim(human), whole, frac) && |frac| <= d
  {
    hide Trim, ToSmallestUnits, Split, Decimal;
    AcceptsSplit(human, d);
    var s := Trim(human);
    if Split(s).Some? { SplitIsDecimal(s); }
    if whole, frac :| Decimal(s, whole, frac) && |frac| <= d { DecimalSplits(s, whole, frac); }
  }

  lemma AcceptsSplit(human: string, d: int)
    ensures ToSmallestUnits(human, d).Some? <==> 0 <= d <= MAX_DECIMALS && Split(Trim(human)).Some? && |Split(Trim(human)).value.1| <= d
  {
    hide Trim, Value, Raw, Pow, PadEnd, Show, Split, AllDigits;
    if 0 <= d <= MAX_DECIMALS && Split(Trim(human)).Some? {
      var (whole, frac) := Split(Trim(human)).value;
      SplitShape(Trim(human));
      if |frac| <= d { RawIsNat(whole, frac, d); }
    }
  }

  predicate Decimal(s: string, whole: string, frac: string) {
    AllDigits(whole) && (frac == "" || AllDigits(frac)) && s == Join(whole, frac)
  }

  lemma SplitIsDecimal(s: string)
    requires Split(s).Some?
    ensures var (whole, frac) := Split(s).value; Decimal(s, whole, frac)
  {
    var k := IndexOf(s, '.');
    if k.Some? { assert s == s[..k.value] + "." + s[k.value + 1..]; }
  }

  lemma DecimalSplits(s: string, whole: string, frac: string)
    requires Decimal(s, whole, frac)
    ensures Split(s) == Some((whole, frac))
  {
    SplitPrinted(whole, frac);
  }

  // --- Addresses -----------------------------------------------------------------------

  predicate IsHexDigit(c: char) {
    IsDigit(c) || 'a' <= c <= 'f' || 'A' <= c <= 'F'
  }

  function HexValue(c: char): (d: int)
    requires IsHexDigit(c)
    ensures 0 <= d < 16 && (d == 0 <==> c == '0')
  {
    if IsDigit(c) then c as int - '0' as int
    else if 'a' <= c then c as int - 'a' as int + 10
    else c as int - 'A' as int + 10
  }

  /** What the address pattern accepts: `0x` and forty hex digits. */
  predicate IsHexAddress(s: string) {
    |s| == 42 && s[0] == '0' && s[1] == 'x' && forall i :: 2 <= i < 42 ==> IsHexDigit(s[i])
  }

  function HexDigits(address: string): (q: seq<int>)
    requires IsHexAddress(address)
    ensures |q| == 40 && Digits(16, q) && forall i :: 0 <= i < 40 ==> q[i] == HexValue(address[i + 2])
  {
    seq(40, i requires 0 <= i < 40 => HexValue(address[i + 2]))
  }

  /** `evmAddressToBytes32`: the address in the low twenty bytes of a word; none is a validation error. */
  method EvmAddressToBytes32(address: string) returns (r: Option<Word>)
    ensures r.Some? <==> IsHexAddress(address)
    ensures r.Some? ==> (forall j :: 0 <= j < 12 ==> r.value[j] == 0) && Num(256, r.value[12..]) == Num(16, HexDigits(address))
    ensures r.Some? ==> (IsEvmAddress(r.value) <==> exists i :: 2 <= i < 42 && address[i] != '0')
  {
    hide HexValue, HexDigits, Num;
    if |address| != 42 || address[0] != '0' || address[1] != 'x' || exists i | 2 <= i < 42 :: !IsHexDigit(address[i]) { return None; }
    var out := new byte[32](_ => 0);
    for i := 0 to 20
      invariant forall j :: 0 <= j < 12 ==> out[j] == 0
      invariant forall j :: 0 <= j < i ==> out[12 + j] == HexDigits(address)[2 * j] * 16 + HexDigits(address)[2 * j + 1]
    {
      out[12 + i] := HexValue(address[2 + 2 * i]) * 16 + HexValue(address[2 + 2 * i + 1]);
    }
    var word: Word := out[..];
    PairedDigits(HexDigits(address), word[12..]);
    ZeroAddress(HexDigits(address), word);
    ZeroDigits(address);
    r := Some(word);
  }

  lemma ZeroDigits(address: string)
    requires IsHexAddress(address)
    ensures (exists i :: 0 <= i < 40 && HexDigits(address)[i] != 0) <==> exists i :: 2 <= i < 42 && address[i] != '0'
  {
    if i :| 0 <= i < 40 && HexDigits(address)[i] != 0 { assert address[i + 2] != '0'; }
    if i :| 2 <= i < 42 && address[i] != '0' { assert HexDigits(address)[i - 2] != 0; }
  }

  /** Bytes made of pairs of hex digits spell the same number. */
  lemma {:induction false} PairedDigits(hex: seq<int>, bytes: seq<int>)
    requires |hex| == 2 * |bytes| && forall j :: 0 <= j < |bytes| ==> bytes[j] == hex[2 * j] * 16 + hex[2 * j + 1]
    ensures Num(256, bytes) == Num(16, hex)
  {
    if bytes != [] {
      var m := |bytes| - 1;
      PairedDigits(hex[..2 * m], bytes[..m]);
      assert hex == hex[..2 * m] + [hex[2 * m]] + [hex[2 * m + 1]];
      NumSnoc(16, hex[..2 * m], hex[2 * m]);
      NumSnoc(16, hex[..2 * m] + [hex[2 * m]], hex[2 * m + 1]);
    }
  }

  /** The contract's shape check refuses exactly the zero address. */
  lemma ZeroAddress(hex: seq<int>, word: Word)
    requires |hex| == 40 && Digits(16, hex) && (forall j :: 0 <= j < 12 ==> word[j] == 0)
    requires forall j :: 0 <= j < 20 ==> word[12..][j] == hex[2 * j] * 16 + hex[2 * j + 1]
    ensures IsEvmAddress(word) <==> exists i :: 0 <= i < 40 && hex[i] != 0
  {
    if IsEvmAddress(word) {
      var k :| 12 <= k < 32 && word[k] != 0;
      assert word[12..][k - 12] != 0;
      assert hex[2 * (k - 12)] != 0 || hex[2 * (k - 12) + 1] != 0;
    }
    if i :| 0 <= i < 40 && hex[i] != 0 {
      assert word[12..][i / 2] == hex[2 * (i / 2)] * 16 + hex[2 * (i / 2) + 1];
      assert i == 2 * (i / 2) || i == 2 * (i / 2) + 1;
      assert word[12 + i / 2] != 0;
    }
  }
}
