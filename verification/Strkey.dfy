/**
 * Stellar strkeys (SEP-0023) as strkey.rs encodes and decodes them: base32 text of
 * version byte, 32-byte key and little-endian CRC-16, without padding.
 */
module Strkey {
  import opened Arithmetic
  import opened Prelude
  import opened Radix
  import opened Crc16

  const VERSION_ACCOUNT: byte := 0x30
  const VERSION_CONTRACT: byte := 0x10

  /** RFC 4648 section 6: A-Z then 2-7. */
  function Alphabet(v: int): byte
    requires 0 <= v < 32
  {
    if v < 26 then 65 + v else 50 + (v - 26)
  }

  function Base32Value(c: int): (v: Option<int>)
    ensures v.Some? ==> 0 <= v.value < 32
  {
    if 65 <= c <= 90 then Some(c - 65)
    else if 50 <= c <= 55 then Some(c - 50 + 26)
    else None
  }

  lemma AlphabetInverse(v: int, c: int)
    ensures 0 <= v < 32 ==> Base32Value(Alphabet(v)) == Some(v)
    ensures Base32Value(c).Some? ==> Alphabet(Base32Value(c).value) == c
  {
  }

  // --- What a strkey is ---------------------------------------------------------

  /** The 280-bit string, read as a number, is written with 56 base32 characters. */
  function Base32Encode(payload: seq<byte>): (text: seq<byte>)
    requires |payload| == 35
    ensures |text| == 56
  {
    NumBound(256, payload);
    var q := ToDigits(32, Num(256, payload), 56);
    seq(56, i requires 0 <= i < 56 => Alphabet(q[i]))
  }

  ghost predicate InAlphabet(s: seq<int>) {
    forall i :: 0 <= i < |s| ==> Base32Value(s[i]).Some?
  }

  function Values(s: seq<int>): (q: seq<int>)
    requires InAlphabet(s)
    ensures |q| == |s|
    ensures forall i :: 0 <= i < |s| ==> 0 <= q[i] < 32 && Base32Value(s[i]) == Some(q[i])
  {
    seq(|s|, i requires 0 <= i < |s| => Base32Value(s[i]).value)
  }

  /** The bytes a base32 text spells; `len` bytes from `8 * len` bits. */
  ghost function Base32Bytes(s: seq<int>, len: nat): (payload: seq<byte>)
    requires InAlphabet(s)
    ensures |payload| == len
  {
    NumBound(32, Values(s));
    ToDigits(256, Num(32, Values(s)), len)
  }

  function Payload(version: byte, key: seq<byte>): (p: seq<byte>)
    requires |key| == 32
    ensures |p| == 35
  {
    var body := [version] + key;
    body + ChecksumBytes(body)
  }

  /** The strkey text of a key. */
  function StrkeyText(version: byte, key: seq<byte>): (text: seq<byte>)
    requires |key| == 32
    ensures |text| == 56
  {
    Base32Encode(Payload(version, key))
  }

  function ContractStrkey(id: seq<byte>): (text: seq<byte>)
    requires |id| == 32
    ensures |text| == 56
  {
    StrkeyText(VERSION_CONTRACT, id)
  }

  function ExpectedVersion(first: int): Option<byte> {
    if first == 71 then Some(VERSION_ACCOUNT)
    else if first == 67 then Some(VERSION_CONTRACT)
    else None
  }

  /** The checks on the 35 decoded bytes. */
  ghost function CheckPayload(p: seq<byte>, expected: byte): Option<(byte, seq<byte>)>
    requires |p| == 35
  {
    if p[0] == expected && ChecksumBytes(p[..33]) == [p[33], p[34]] then Some((p[0], p[1..33])) else None
  }

  ghost function DecodeStrkey(s: seq<int>): (r: Option<(byte, seq<byte>)>)
    ensures r.Some? ==> |r.value.1| == 32
  {
    if |s| != 56 || ExpectedVersion(s[0]).None? || !InAlphabet(s) then None
    else CheckPayload(Base32Bytes(s, 35), ExpectedVersion(s[0]).value)
  }

  ghost predicate IsValidStrkey(s: seq<int>) {
    DecodeStrkey(s).Some?
  }

  // --- Powers of two ------------------------------------------------------------

  lemma {:induction false} Pow2Monotone(a: nat, b: nat)
    requires a <= b
    ensures Pow(2, a) <= Pow(2, b)
  {
    if a < b { Pow2Monotone(a, b - 1); }
  }

  lemma SmallPowers()
    ensures Pow(2, 3) == 8 && Pow(2, 5) == 32 && Pow(2, 8) == 256
  {
    assert Pow(2, 3) == Pow(2, 2) * 2;
    assert Pow(2, 5) == Pow(2, 4) * 2 == Pow(2, 3) * 2 * 2;
    assert Pow(2, 6) == Pow(2, 5) * 2 && Pow(2, 7) == Pow(2, 6) * 2;
  }

  lemma Width280()
    ensures Pow(32, 56) == Pow(256, 35) && Pow(32, 55) == 8 * Pow(256, 34)
  {
    SmallPowers();
    PowOfPow2(32, 5, 56);
    PowOfPow2(256, 8, 35);
    PowOfPow2(32, 5, 55);
    PowOfPow2(256, 8, 34);
    PowAdd(2, 272, 3);
  }

  // --- Encode and decode undo each other ----------------------------------------

  lemma EncodeValues(p: seq<byte>)
    requires |p| == 35
    ensures InAlphabet(Base32Encode(p))
    ensures Num(32, Values(Base32Encode(p))) == Num(256, p)
    ensures Base32Bytes(Base32Encode(p), 35) == p
  {
    hide Pow, Num, ToDigits, ExpectedVersion, ChecksumBytes;
    NumBound(256, p);
    Width280();
    var n := Num(256, p);
    var q := ToDigits(32, n, 56);
    var text := Base32Encode(p);
    forall i | 0 <= i < 56 ensures Base32Value(text[i]) == Some(q[i]) {
      AlphabetInverse(q[i], 0);
    }
    assert Values(text) == q;
    NumToDigits(32, n, 56);
    ToDigitsNum(256, p);
  }

  lemma BytesEncode(s: seq<int>)
    requires |s| == 56 && InAlphabet(s)
    ensures Base32Encode(Base32Bytes(s, 35)) == s
  {
    hide Pow, Num, ToDigits, Values;
    var q := Values(s);
    var p := Base32Bytes(s, 35);
    NumBound(32, q);
    Width280();
    NumToDigits(256, Num(32, q), 35);
    ToDigitsNum(32, q);
    var text := Base32Encode(p);
    forall i | 0 <= i < 56 ensures text[i] == s[i] {
      AlphabetInverse(0, s[i]);
    }
  }

  /** The first character is the top five bits of the version byte. */
  lemma FirstCharacter(p: seq<byte>, s: seq<int>)
    requires |p| == 35 && |s| == 56 && InAlphabet(s)
    requires Num(32, Values(s)) == Num(256, p)
    ensures Base32Value(s[0]) == Some(p[0] / 8)
  {
    hide Pow, Num;
    var q := Values(s);
    var x := Pow(256, 34);
    Width280();
    NumFirst(32, q);
    NumFirst(256, p);
    NumBound(32, q[1..]);
    NumBound(256, p[1..]);
    TopDigits(q[0], Num(32, q[1..]), p[0], Num(256, p[1..]), x);
  }

  lemma TopDigits(q: int, r: int, b: int, t: int, x: int)
    requires x > 0 && 0 <= r < 8 * x && 0 <= t < x
    requires q * (8 * x) + r == b * x + t
    ensures q == b / 8
  {
    assert q * (8 * x) == (8 * q) * x;
    if 8 * q > b { MulMono(b + 1, 8 * q, x); }
    if 8 * q + 8 <= b { MulMono(8 * q + 8, b, x); }
  }

  lemma VersionCharacter(version: byte, key: seq<byte>)
    requires |key| == 32
    ensures version == VERSION_CONTRACT ==> ExpectedVersion(StrkeyText(version, key)[0]) == Some(version)
    ensures version == VERSION_ACCOUNT ==> ExpectedVersion(StrkeyText(version, key)[0]) == Some(version)
  {
    var p := Payload(version, key);
    EncodeValues(p);
    FirstCharacter(p, StrkeyText(version, key));
    AlphabetInverse(0, StrkeyText(version, key)[0]);
  }

  /** Decoding an encoded key gives back its version and bytes, for every key. */
  lemma DecodeOfEncode(version: byte, key: seq<byte>)
    requires |key| == 32 && version in {VERSION_ACCOUNT, VERSION_CONTRACT}
    ensures DecodeStrkey(StrkeyText(version, key)) == Some((version, key))
  {
    var p := Payload(version, key);
    EncodeValues(p);
    VersionCharacter(version, key);
    assert p[..33] == [version] + key;
    assert p[1..33] == key;
    var c := ChecksumBytes(p[..33]);
    assert [p[33], p[34]] == c;
  }

  /** Every accepted text is the one strkey of what it decodes to. */
  lemma EncodeOfDecode(s: seq<int>)
    requires DecodeStrkey(s).Some?
    ensures var (version, key) := DecodeStrkey(s).value;
      version in {VERSION_ACCOUNT, VERSION_CONTRACT} && s == StrkeyText(version, key)
  {
    var p := Base32Bytes(s, 35);
    var (version, key) := DecodeStrkey(s).value;
    BytesEncode(s);
    assert p == p[..33] + [p[33], p[34]];
    assert p[..33] == [p[0]] + p[1..33];
    assert p == Payload(version, key);
  }

  /** Acceptance is exactly being the strkey of some account or contract key. */
  lemma ValidIffStrkey(s: seq<int>)
    ensures IsValidStrkey(s) <==>
      exists version: byte, key: seq<byte> ::
        |key| == 32 && version in {VERSION_ACCOUNT, VERSION_CONTRACT} && s == StrkeyText(version, key)
  {
    if IsValidStrkey(s) {
      EncodeOfDecode(s);
      var (version, key) := DecodeStrkey(s).value;
      assert s == StrkeyText(version, key);
    }
    if version: byte, key: seq<byte> :|
      |key| == 32 && version in {VERSION_ACCOUNT, VERSION_CONTRACT} && s == StrkeyText(version, key)
    {
      DecodeOfEncode(version, key);
    }
  }

  // --- The bit-buffer loops -----------------------------------------------------

  /** `(buffer << w) | v` on a `u64`, where `base` is `1 << w`: the top bits fall off. */
  function ShiftIn(buffer: u64, base: int, v: int): u64
    requires base in {32, 256} && 0 <= v < base
  {
    (buffer * base) % U64_LIMIT + v
  }

  /**
   * A shift that drops `c` multiples of the word size never touches the pending
   * bits: `p` is their range before the shift, `rest` is what lies above them.
   */
  lemma WrapKeepsPending(next: int, buffer: int, base: int, v: int, c: int, p: int, rest: int)
    requires 0 <= v < base && p > 0
    requires next == buffer * base - c * (p * base * rest) + v
    ensures p * base > 0
    ensures next % (p * base) == (buffer % p) * base + v
  {
    var m := p * base;
    MulMono(1, p, base);
    var a, l := buffer / p, buffer % p;
    assert next == (a - c * rest) * m + (l * base + v) by {
      Regroup(a, p, l, base, c, rest);
    }
    MulMono(l + 1, p, base);
    MulMono(0, l, base);
    DivModUnique(next, a - c * rest, l * base + v, m);
  }

  lemma Regroup(a: int, p: int, l: int, base: int, c: int, rest: int)
    ensures (a * p + l) * base - c * (p * base * rest) == (a - c * rest) * (p * base) + l * base
  {
    assert (a * p + l) * base == a * (p * base) + l * base;
    assert c * (p * base * rest) == (c * rest) * (p * base);
  }

  lemma ShiftInKeepsPending(buffer: u64, base: int, width: nat, v: int, k: nat)
    requires base == Pow(2, width) && base in {32, 256} && 0 <= v < base && k + width <= 64
    ensures ShiftIn(buffer, base, v) % Pow(2, k + width) == (buffer % Pow(2, k)) * base + v
  {
    PowAdd(2, k, width);
    PowAdd(2, k + width, 64 - (k + width));
    Pow64();
    var c := (buffer * base) / U64_LIMIT;
    WrapKeepsPending(ShiftIn(buffer, base, v), buffer, base, v, c, Pow(2, k), Pow(2, 64 - (k + width)));
  }

  /** The number read so far: finished output digits, then the pending bits. */
  ghost predicate Pending(base: Base, done: seq<int>, buffer: int, bits: nat, value: int) {
    value == Num(base, done) * Pow(2, bits) + buffer % Pow(2, bits)
  }

  lemma TakeIn(base: Base, done: seq<int>, buffer: int, bits: nat, value: int, width: nat, v: int, next: int)
    requires Pending(base, done, buffer, bits, value)
    requires next % Pow(2, bits + width) == (buffer % Pow(2, bits)) * Pow(2, width) + v
    ensures Pending(base, done, next, bits + width, value * Pow(2, width) + v)
  {
    PowAdd(2, bits, width);
    Distribute(Num(base, done), Pow(2, bits), buffer % Pow(2, bits), Pow(2, width), v);
  }

  lemma Distribute(n: int, p: int, l: int, b: int, v: int)
    ensures (n * p + l) * b + v == n * (p * b) + (l * b + v)
  {
  }

  lemma PutOut(base: Base, done: seq<int>, buffer: int, bits: nat, value: int, width: nat)
    requires Pending(base, done, buffer, bits, value)
    requires base == Pow(2, width) && width <= bits
    ensures Pending(base, done + [(buffer / Pow(2, bits - width)) % base], buffer, bits - width, value)
  {
    var p := Pow(2, bits - width);
    PowAdd(2, bits - width, width);
    ModSplit(buffer, p, base);
    var d := (buffer / p) % base;
    NumSnoc(base, done, d);
    var n := Num(base, done);
    Distribute(n, base, d, p, buffer % p);
    assert n * (base * p) == n * (p * base);
  }

  lemma NothingPending(base: Base, done: seq<int>, buffer: int, value: int)
    requires Pending(base, done, buffer, 0, value)
    ensures Num(base, done) == value
  {
    assert Pow(2, 0) == 1;
  }

  lemma NothingRead(base: Base, inBase: Base, input: seq<int>)
    ensures Pending(base, [], 0, 0, Num(inBase, input[..0]))
  {
  }

  lemma ByteIn(payload: seq<byte>, q: seq<int>, buffer: u64, bits: nat, i: nat)
    requires i < |payload| && bits < 5
    requires Pending(32, q, buffer, bits, Num(256, payload[..i]))
    ensures Pending(32, q, ShiftIn(buffer, 256, payload[i]), bits + 8, Num(256, payload[..i + 1]))
  {
    SmallPowers();
    ShiftInKeepsPending(buffer, 256, 8, payload[i], bits);
    TakeIn(32, q, buffer, bits, Num(256, payload[..i]), 8, payload[i], ShiftIn(buffer, 256, payload[i]));
    NumSnoc(256, payload[..i], payload[i]);
    assert payload[..i + 1] == payload[..i] + [payload[i]];
  }

  lemma QuintetOut(q: seq<int>, buffer: int, bits: nat, value: int)
    requires 5 <= bits && Pending(32, q, buffer, bits, value)
    ensures Pending(32, q + [(buffer / Pow(2, bits - 5)) % 32], buffer, bits - 5, value)
  {
    SmallPowers();
    PutOut(32, q, buffer, bits, value, 5);
  }

  lemma AllEncoded(payload: seq<byte>, q: seq<int>, buffer: int, text: seq<byte>)
    requires |payload| == 35 && |q| == 56 && Digits(32, q) && |text| == 56
    requires Pending(32, q, buffer, 0, Num(256, payload[..35]))
    requires forall j :: 0 <= j < 56 ==> text[j] == Alphabet(q[j])
    ensures text == Base32Encode(payload)
  {
    hide Pow, Num, ToDigits, Pending, Alphabet;
    assert payload[..35] == payload;
    NothingPending(32, q, buffer, Num(256, payload));
    NumBound(256, payload);
    ToDigitsNum(32, q);
  }

  /**
   * `contract_strkey`: bytes are shifted into a 64-bit buffer and taken out five
   * bits at a time. The 280 bits overflow the buffer many times over.
   */
  method Base32EncodeLoop(payload: seq<byte>) returns (text: seq<byte>)
    requires |payload| == 35
    ensures text == Base32Encode(payload)
  {
    hide Pow, Num, ToDigits, Pending, ShiftIn, Alphabet, Base32Encode;
    var out := new byte[56](_ => 0);
    var bitBuffer: u64, bitsInBuffer: nat, outIdx: nat := 0, 0, 0;
    ghost var q: seq<int> := [];
    NothingRead(32, 256, payload);
    for i := 0 to 35
      invariant 8 * i == 5 * outIdx + bitsInBuffer && bitsInBuffer < 5
      invariant |q| == outIdx && Digits(32, q)
      invariant Pending(32, q, bitBuffer, bitsInBuffer, Num(256, payload[..i]))
      invariant forall j :: 0 <= j < outIdx ==> out[j] == Alphabet(q[j])
    {
      ByteIn(payload, q, bitBuffer, bitsInBuffer, i);
      bitBuffer := ShiftIn(bitBuffer, 256, payload[i]);
      bitsInBuffer := bitsInBuffer + 8;
      ghost var value := Num(256, payload[..i + 1]);
      while bitsInBuffer >= 5
        invariant 8 * (i + 1) == 5 * outIdx + bitsInBuffer
        invariant |q| == outIdx && Digits(32, q)
        invariant Pending(32, q, bitBuffer, bitsInBuffer, value)
        invariant forall j :: 0 <= j < outIdx ==> out[j] == Alphabet(q[j])
      {
        QuintetOut(q, bitBuffer, bitsInBuffer, value);
        bitsInBuffer := bitsInBuffer - 5;
        var index := (bitBuffer / Pow(2, bitsInBuffer)) % 32;
        out[outIdx] := Alphabet(index);
        outIdx := outIdx + 1;
        q := q + [index];
      }
    }
    text := out[..];
    AllEncoded(payload, q, bitBuffer, text);
  }

  method ContractStrkeyLoop(id: seq<byte>) returns (text: seq<byte>)
    requires |id| == 32
    ensures text == ContractStrkey(id)
  {
    var body: seq<byte> := [VERSION_CONTRACT] + id;
    var crc := Checksum(body);
    text := Base32EncodeLoop(body + crc);
  }

  lemma CharacterIn(s: seq<int>, p: seq<byte>, buffer: int, bits: nat, i: nat, next: int)
    requires i < |s| && InAlphabet(s[..i]) && Base32Value(s[i]).Some?
    requires Pending(256, p, buffer, bits, Num(32, Values(s[..i])))
    requires next % Pow(2, bits + 5) == (buffer % Pow(2, bits)) * 32 + Base32Value(s[i]).value
    ensures InAlphabet(s[..i + 1])
    ensures Pending(256, p, next, bits + 5, Num(32, Values(s[..i + 1])))
  {
    SmallPowers();
    var v := Base32Value(s[i]).value;
    TakeIn(256, p, buffer, bits, Num(32, Values(s[..i])), 5, v, next);
    assert s[..i + 1] == s[..i] + [s[i]];
    assert Values(s[..i + 1]) == Values(s[..i]) + [v];
    NumSnoc(32, Values(s[..i]), v);
  }

  lemma Char5(buffer: u64, v: int, bits: nat)
    requires 0 <= v < 32 && bits < 8
    ensures ShiftIn(buffer, 32, v) % Pow(2, bits + 5) == (buffer % Pow(2, bits)) * 32 + v
  {
    SmallPowers();
    ShiftInKeepsPending(buffer, 32, 5, v, bits);
  }

  lemma ByteOut(p: seq<byte>, buffer: int, bits: nat, value: int)
    requires 8 <= bits && Pending(256, p, buffer, bits, value)
    ensures Pending(256, p + [(buffer / Pow(2, bits - 8)) % 256], buffer, bits - 8, value)
  {
    SmallPowers();
    PutOut(256, p, buffer, bits, value, 8);
  }

  lemma AllDecoded(s: seq<int>, p: seq<byte>, buffer: int)
    requires InAlphabet(s[..|s|])
    requires Pending(256, p, buffer, 0, Num(32, Values(s[..|s|])))
    ensures InAlphabet(s) && p == Base32Bytes(s, |p|)
  {
    hide Pow, Num, ToDigits, Pending;
    assert s[..|s|] == s;
    NothingPending(256, p, buffer, Num(32, Values(s)));
    ToDigitsNum(256, p);
  }

  /** The loop of `decode_strkey`: five bits in, eight bits out. */
  method Base32DecodeLoop(s: seq<byte>) returns (r: Option<seq<byte>>)
    requires |s| == 56
    ensures r == if InAlphabet(s) then Some(Base32Bytes(s, 35)) else None
  {
    hide Pow, Num, ToDigits, Pending, ShiftIn, Base32Value, Base32Bytes;
    var payload := new byte[35](_ => 0);
    var bitBuffer: u64, bitsInBuffer: nat, outIdx: nat := 0, 0, 0;
    assert payload[..0] == [] && s[..0] == [];
    NothingRead(256, 32, s);
    assert Values(s[..0]) == s[..0];
    for i := 0 to 56
      invariant 5 * i == 8 * outIdx + bitsInBuffer && bitsInBuffer < 8 && outIdx <= 35
      invariant InAlphabet(s[..i])
      invariant Pending(256, payload[..outIdx], bitBuffer, bitsInBuffer, Num(32, Values(s[..i])))
    {
      var value := Base32Value(s[i]);
      if value.None? {
        assert !InAlphabet(s);
        return None;
      }
      Char5(bitBuffer, value.value, bitsInBuffer);
      CharacterIn(s, payload[..outIdx], bitBuffer, bitsInBuffer, i, ShiftIn(bitBuffer, 32, value.value));
      bitBuffer := ShiftIn(bitBuffer, 32, value.value);
      bitsInBuffer := bitsInBuffer + 5;
      if bitsInBuffer >= 8 {
        ghost var before := payload[..outIdx];
        ByteOut(before, bitBuffer, bitsInBuffer, Num(32, Values(s[..i + 1])));
        bitsInBuffer := bitsInBuffer - 8;
        payload[outIdx] := (bitBuffer / Pow(2, bitsInBuffer)) % 256;
        outIdx := outIdx + 1;
        assert payload[..outIdx] == before + [payload[outIdx - 1]];
      }
    }
    assert payload[..35] == payload[..];
    AllDecoded(s, payload[..], bitBuffer);
    r := Some(payload[..]);
  }

  method DecodeStrkeyLoop(s: seq<byte>) returns (r: Option<(byte, seq<byte>)>)
    ensures r == DecodeStrkey(s)
  {
    hide Base32Bytes, ChecksumBytes;
    if |s| != 56 { return None; }
    var expected := ExpectedVersion(s[0]);
    if expected.None? { return None; }
    var bytes := Base32DecodeLoop(s);
    if bytes.None? { return None; }
    var p := bytes.value;
    var crc := Checksum(p[..33]);
    if p[0] != expected.value || crc != [p[33], p[34]] { return None; }
    r := Some((p[0], p[1..33]));
  }
}
