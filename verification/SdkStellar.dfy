/**
 * The SDK's Stellar validators (stellar.ts), on UTF-16 code units. Each is proved
 * to decide exactly what the settlement contract's strkey.rs and asset.rs decide.
 */
module SdkStellar {
  import opened Arithmetic
  import opened Prelude
  import opened Radix
  import opened Crc16
  import opened Strkey
  import opened Asset

  /** JavaScript's conversion to a signed 32-bit integer. */
  function ToInt32(x: int): int {
    (x + 0x8000_0000) % 0x1_0000_0000 - 0x8000_0000
  }

  /** `(buf << 5) | val`: five zero bits make room, so the or is a sum. */
  function ShiftIn32(buf: int, val: int): int {
    ToInt32(buf * 32) + val
  }

  lemma ShiftIn32KeepsPending(buf: int, val: int, k: nat)
    requires 0 <= val < 32 && k < 8
    ensures ShiftIn32(buf, val) % Pow(2, k + 5) == (buf % Pow(2, k)) * 32 + val
  {
    SmallPowers();
    PowAdd(2, k, 5);
    PowAdd(2, k + 5, 32 - (k + 5));
    assert Pow(2, 32) == 0x1_0000_0000 by { PowAdd(2, 8, 8); PowAdd(2, 16, 16); }
    var c := (buf * 32 + 0x8000_0000) / 0x1_0000_0000;
    WrapKeepsPending(ShiftIn32(buf, val), buf, 32, val, c, Pow(2, k), Pow(2, 32 - (k + 5)));
  }

  /** `base32Decode`: any length that fills whole bytes. */
  method Base32Decode(input: seq<int>) returns (r: Option<seq<byte>>)
    ensures r == if |input| * 5 % 8 == 0 && InAlphabet(input) then Some(Base32Bytes(input, |input| * 5 / 8)) else None
  {
    hide Pow, Num, ToDigits, Pending, ShiftIn32, Base32Value, Base32Bytes;
    var bits := |input| * 5;
    if bits % 8 != 0 { return None; }
    var out := new byte[bits / 8](_ => 0);
    var buf, bitsLeft: nat, idx: nat := 0, 0, 0;
    NothingRead(256, 32, input);
    assert Values(input[..0]) == input[..0] && out[..0] == [];
    for i := 0 to |input|
      invariant 5 * i == 8 * idx + bitsLeft && bitsLeft < 8 && idx <= out.Length
      invariant InAlphabet(input[..i])
      invariant Pending(256, out[..idx], buf, bitsLeft, Num(32, Values(input[..i])))
    {
      var val := Base32Value(input[i]);
      if val.None? {
        assert !InAlphabet(input);
        return None;
      }
      ShiftIn32KeepsPending(buf, val.value, bitsLeft);
      CharacterIn(input, out[..idx], buf, bitsLeft, i, ShiftIn32(buf, val.value));
      buf := ShiftIn32(buf, val.value);
      bitsLeft := bitsLeft + 5;
      if bitsLeft >= 8 {
        ghost var before := out[..idx];
        ByteOut(before, buf, bitsLeft, Num(32, Values(input[..i + 1])));
        bitsLeft := bitsLeft - 8;
        out[idx] := (buf / Pow(2, bitsLeft)) % 256;
        idx := idx + 1;
        assert out[..idx] == before + [out[idx - 1]];
      }
    }
    assert out[..out.Length] == out[..];
    AllDecoded(input, out[..], buf);
    r := Some(out[..]);
  }

  /** The SDK compares one number, the contract two bytes. */
  lemma ChecksumAsNumber(body: seq<byte>, lo: byte, hi: byte)
    ensures lo + 256 * (hi as int) == Crc(body) as int <==> ChecksumBytes(body) == [lo, hi]
  {
    hide Crc;
    TwoBytes(Crc(body) as int, lo, hi);
  }

  lemma TwoBytes(n: nat, lo: byte, hi: byte)
    ensures lo + 256 * (hi as int) == n <==> [n % 256, n / 256] == [lo as int, hi as int]
  {
    if lo + 256 * (hi as int) == n { DivModUnique(n, hi, lo, 256); }
  }

  /** `isValidStrkey`, which also takes payloads of other lengths. */
  method IsValidStrkeyText(value: seq<int>, expectedVersion: byte) returns (r: bool)
    ensures |value| == 56 ==>
      (r <==> InAlphabet(value) && CheckPayload(Base32Bytes(value, 35), expectedVersion).Some?)
  {
    hide Base32Bytes, Crc, ChecksumBytes;
    var decoded := Base32Decode(value);
    if decoded.None? || |decoded.value| < 3 { return false; }
    var d := decoded.value;
    if d[0] != expectedVersion { return false; }
    var n := |d|;
    var crc := SdkCrc16(d[..n - 2]);
    ChecksumAsNumber(d[..n - 2], d[n - 2], d[n - 1]);
    r := crc == d[n - 2] + 256 * (d[n - 1] as int);
  }

  /** `isStellarAddress` accepts exactly the contract's valid strkeys. */
  method IsStellarAddress(value: seq<int>) returns (r: bool)
    ensures r <==> IsValidStrkey(value)
  {
    hide Base32Bytes, CheckPayload;
    if |value| != 56 { return false; }
    if value[0] == 71 {
      r := IsValidStrkeyText(value, 0x30);
    } else if value[0] == 67 {
      r := IsValidStrkeyText(value, 0x10);
    } else {
      r := false;
    }
  }

  /** `decodeStrkey` looks at the version byte where the contract looks at the first character. */
  method SdkDecodeStrkey(value: seq<int>) returns (r: Option<(byte, seq<byte>)>)
    ensures r == DecodeStrkey(value)
  {
    hide Base32Bytes, ChecksumBytes, Crc;
    var decoded := Base32Decode(value);
    if decoded.None? || |decoded.value| != 35 { return None; }
    assert |value| == 56 && InAlphabet(value);
    var d := decoded.value;
    FirstByte(value);
    var version := d[0];
    if version != 0x30 && version != 0x10 { return None; }
    var crc := SdkCrc16(d[..33]);
    ChecksumAsNumber(d[..33], d[33], d[34]);
    if crc != d[33] + 256 * (d[34] as int) { return None; }
    r := Some((version, d[1..33]));
  }

  lemma FirstByte(value: seq<int>)
    requires |value| == 56 && InAlphabet(value)
    ensures var b := Base32Bytes(value, 35)[0];
      (b == 0x30 ==> ExpectedVersion(value[0]) == Some(b)) && (b == 0x10 ==> ExpectedVersion(value[0]) == Some(b))
  {
    var p := Base32Bytes(value, 35);
    BytesEncode(value);
    EncodeValues(p);
    FirstCharacter(p, value);
    AlphabetInverse(0, value[0]);
  }

  /** `isStellarAsset` accepts exactly what the contract's `parse` accepts. */
  method IsStellarAsset(value: seq<int>) returns (r: bool)
    ensures r <==> Parse(value).Some?
  {
    hide Base32Bytes, CheckPayload;
    if value == NATIVE { return true; }
    var colon := Position(value, COLON);
    if colon.None? {
      if |value| == 56 && value[0] == 67 {
        r := IsValidStrkeyText(value, 0x10);
      } else {
        r := false;
      }
      return;
    }
    var code, issuer := value[..colon.value], value[colon.value + 1..];
    if !IsAssetCode(code) { return false; }
    if |issuer| == 56 && issuer[0] == 71 {
      r := IsValidStrkeyText(issuer, 0x30);
    } else {
      r := false;
    }
  }
}
