/** Canonical `destAsset` identifiers, as asset.rs parses them. */
module Asset {
  import opened Prelude
  import opened Radix
  import opened Strkey

  const MAX_DEST_ASSET_LEN := 69

  /** The bytes of `native`. */
  const NATIVE: seq<int> := [110, 97, 116, 105, 118, 101]

  const COLON: int := 58

  datatype DestAsset =
    | Native
    | Classic(code: seq<int>, issuer: seq<byte>)
    | Contract

  /** Position of the first `c`. */
  function Position(s: seq<int>, c: int): (r: Option<nat>)
    ensures r.Some? ==> r.value < |s| && s[r.value] == c && c !in s[..r.value]
    ensures r.None? ==> c !in s
  {
    if s == [] then None
    else if s[0] == c then Some(0)
    else
      match Position(s[1..], c)
      case None => None
      case Some(i) => assert s[..i + 1] == [s[0]] + s[1..][..i]; Some(i + 1)
  }

  predicate IsAlphanumeric(c: int) {
    48 <= c <= 57 || 65 <= c <= 90 || 97 <= c <= 122
  }

  predicate IsAssetCode(code: seq<int>) {
    0 < |code| <= 12 && forall i :: 0 <= i < |code| ==> IsAlphanumeric(code[i])
  }

  /** `parse`: the three forms, in the source's order. */
  ghost function Parse(id: seq<int>): Option<DestAsset> {
    if id == NATIVE then Some(Native)
    else
      match Position(id, COLON)
      case Some(colon) =>
        var code, issuer := id[..colon], id[colon + 1..];
        if !IsAssetCode(code) then None
        else if issuer == [] || issuer[0] != 71 then None
        else (
          match DecodeStrkey(issuer)
          case None => None
          case Some((_, key)) => Some(Classic(code, key))
        )
      case None =>
        if id != [] && id[0] == 67 && IsValidStrkey(id) then Some(Contract) else None
  }

  /** A classic identifier is determined by the asset it names. */
  lemma ClassicIsCanonical(id: seq<int>)
    requires Parse(id).Some? && Parse(id).value.Classic?
    ensures var Classic(code, issuer) := Parse(id).value;
      |issuer| == 32 && IsAssetCode(code) && id == code + [COLON] + StrkeyText(VERSION_ACCOUNT, issuer)
  {
    var colon := Position(id, COLON).value;
    var issuer := id[colon + 1..];
    EncodeOfDecode(issuer);
    assert id == id[..colon] + [COLON] + issuer;
  }

  lemma {:induction false} PositionAfter(prefix: seq<int>, c: int, rest: seq<int>)
    requires c !in prefix
    ensures Position(prefix + ([c] + rest), c) == Some(|prefix|)
  {
    var s := prefix + ([c] + rest);
    if prefix != [] {
      PositionAfter(prefix[1..], c, rest);
      assert s[1..] == prefix[1..] + ([c] + rest);
    }
  }

  /** Conversely every code and issuer has an identifier that parses to exactly that asset. */
  lemma ClassicRoundTrip(code: seq<int>, issuer: seq<byte>)
    requires IsAssetCode(code) && |issuer| == 32
    ensures Parse(code + [COLON] + StrkeyText(VERSION_ACCOUNT, issuer)) == Some(Classic(code, issuer))
  {
    var text := StrkeyText(VERSION_ACCOUNT, issuer);
    var id := code + [COLON] + text;
    DecodeOfEncode(VERSION_ACCOUNT, issuer);
    PositionAfter(code, COLON, text);
    assert id == code + ([COLON] + text);
    assert id[..|code|] == code && id[|code| + 1..] == text;
    assert ExpectedVersion(text[0]).Some?;
    VersionCharacter(VERSION_ACCOUNT, issuer);
  }

  /** The identifier of a classic asset: one to twelve digits or letters, a colon, the issuer's strkey. */
  ghost predicate NamesClassic(id: seq<int>, code: seq<int>, issuer: seq<byte>) {
    && 1 <= |code| <= 12
    && (forall i :: 0 <= i < |code| ==> 48 <= code[i] <= 57 || 65 <= code[i] <= 90 || 97 <= code[i] <= 122)
    && |issuer| == 32 && id == code + [58] + StrkeyText(VERSION_ACCOUNT, issuer)
  }

  ghost predicate NamesContract(id: seq<int>, contract: seq<byte>) {
    |contract| == 32 && id == StrkeyText(VERSION_CONTRACT, contract)
  }

  /** What `parse` accepts, as each form: the word for the native asset, a classic asset's name, or a contract's strkey. */
  lemma ParsesIff(id: seq<int>)
    ensures Parse(id) == Some(Native) <==> id == [110, 97, 116, 105, 118, 101]
    ensures forall code, issuer :: Parse(id) == Some(Classic(code, issuer)) <==> NamesClassic(id, code, issuer)
    ensures Parse(id) == Some(Contract) <==> exists contract :: NamesContract(id, contract)
  {
    hide Parse, DecodeStrkey;
    NativeIff(id);
    forall code, issuer: seq<byte> ensures Parse(id) == Some(Classic(code, issuer)) <==> NamesClassic(id, code, issuer) {
      if Parse(id) == Some(Classic(code, issuer)) { ClassicIsCanonical(id); }
      if NamesClassic(id, code, issuer) { ClassicRoundTrip(code, issuer); }
    }
    if Parse(id) == Some(Contract) { ContractIsCanonical(id); }
    if contract :| NamesContract(id, contract) { ContractRoundTrip(contract); }
  }

  lemma NativeIff(id: seq<int>)
    ensures Parse(id) == Some(Native) <==> id == [110, 97, 116, 105, 118, 101]
  {
    hide DecodeStrkey;
  }

  lemma ContractIsCanonical(id: seq<int>)
    requires Parse(id) == Some(Contract)
    ensures exists contract :: NamesContract(id, contract)
  {
    EncodeOfDecode(id);
    var (version, key) := DecodeStrkey(id).value;
    VersionCharacter(version, key);
    assert NamesContract(id, key);
  }

  lemma NoColon(s: seq<int>)
    requires InAlphabet(s)
    ensures COLON !in s
  {
    forall i | 0 <= i < |s| ensures s[i] != COLON { assert Base32Value(s[i]).Some? && Base32Value(COLON).None?; }
  }

  lemma ContractRoundTrip(contract: seq<byte>)
    requires |contract| == 32
    ensures Parse(StrkeyText(VERSION_CONTRACT, contract)) == Some(Contract)
  {
    var id := StrkeyText(VERSION_CONTRACT, contract);
    DecodeOfEncode(VERSION_CONTRACT, contract);
    VersionCharacter(VERSION_CONTRACT, contract);
    NoColon(id);
  }

  /** No accepted identifier has a NUL, so padding can be told from content. */
  lemma NoNul(id: seq<int>)
    requires Parse(id).Some?
    ensures 0 < |id| <= MAX_DEST_ASSET_LEN && 0 !in id
    ensures forall i :: 0 <= i < |id| ==> 0 < id[i] < 128
  {
    var a := Parse(id).value;
    match a
    case Native =>
    case Classic(code, issuer) =>
      var colon := Position(id, COLON).value;
      StrkeyHasNoNul(id[colon + 1..]);
      assert id == id[..colon] + [COLON] + id[colon + 1..];
      forall i | 0 <= i < |id| ensures 0 < id[i] < 128 {
        if i < colon { assert IsAlphanumeric(code[i]); }
        else if i > colon { assert id[i] == id[colon + 1..][i - colon - 1]; }
      }
    case Contract => StrkeyHasNoNul(id);
  }

  lemma StrkeyHasNoNul(s: seq<int>)
    requires IsValidStrkey(s)
    ensures |s| == 56 && forall i :: 0 <= i < |s| ==> 0 < s[i] < 128
  {
    assert InAlphabet(s);
    forall i | 0 <= i < |s| ensures 0 < s[i] < 128 { assert Base32Value(s[i]).Some?; }
  }

  /** `parse` on bytes, by the contract's own strkey loops. */
  method ParseText(id: seq<byte>) returns (r: Option<DestAsset>)
    ensures r == Parse(id)
  {
    hide CheckPayload, Base32Bytes;
    if id == NATIVE { return Some(Native); }
    var colon := Position(id, COLON);
    if colon.Some? {
      var code, issuer := id[..colon.value], id[colon.value + 1..];
      if !IsAssetCode(code) || issuer == [] || issuer[0] != 71 { return None; }
      var decoded := DecodeStrkeyLoop(issuer);
      if decoded.None? { return None; }
      var (_, key) := decoded.value;
      return Some(Classic(code, key));
    }
    if id == [] || id[0] != 67 { return None; }
    var decoded := DecodeStrkeyLoop(id);
    r := if decoded.Some? then Some(Contract) else None;
  }
}
