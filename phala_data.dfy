/** The destination-ledger value codecs of `src/phala/data.ts`: an Ethereum
    address, an Ethereum transaction hash and a token balance, each validated
    from an untyped value and encoded into the destination's representation. */
module PhalaData {
  import opened Codec
  import opened Lexical

  const MalformedAddress := "Malformed Ethereum address"
  const MalformedTxHash := "Malformed Ethereum Tx hash"
  const NonIntegerBalance := "Non-integer balance"

  /** `/^0x[A-Fa-f0-9]{40}$/` */
  predicate IsEthereumAddress(s: string) {
    IsPrefixedHex(s, 40)
  }

  /** `/^0x([A-Fa-f0-9]{64})$/` */
  predicate IsEthereumTxHash(s: string) {
    IsPrefixedHex(s, 64)
  }

  /** `/^\d+$/` */
  predicate IsBalance(s: string) {
    IsDigitString(s)
  }

  /** `ethereumAddress.validate`: a string first, then the pattern. */
  function ValidateEthereumAddress(u: Value): (r: Validation<string>)
    ensures r.Ok? <==> u.Str? && IsEthereumAddress(u.s)
    ensures r.Ok? ==> r.value == u.s
    ensures !u.Str? ==> r == Err([Expected(StringKind, u)])
    ensures u.Str? && !IsEthereumAddress(u.s) ==> r == Err([Rejected(u.s, MalformedAddress)])
  {
    match ValidateString(u)
    case Err(issues) => Err(issues)
    case Ok(s) => if IsEthereumAddress(s) then Ok(s) else Err([Rejected(s, MalformedAddress)])
  }

  /** `ethereumTxHash.validate`: a string first, then the pattern. */
  function ValidateEthereumTxHash(u: Value): (r: Validation<string>)
    ensures r.Ok? <==> u.Str? && IsEthereumTxHash(u.s)
    ensures r.Ok? ==> r.value == u.s
    ensures !u.Str? ==> r == Err([Expected(StringKind, u)])
    ensures u.Str? && !IsEthereumTxHash(u.s) ==> r == Err([Rejected(u.s, MalformedTxHash)])
  {
    match ValidateString(u)
    case Err(issues) => Err(issues)
    case Ok(s) => if IsEthereumTxHash(s) then Ok(s) else Err([Rejected(s, MalformedTxHash)])
  }

  /** `balanceOf.validate`: a string first, then the pattern. */
  function ValidateBalance(u: Value): (r: Validation<string>)
    ensures r.Ok? <==> u.Str? && IsBalance(u.s)
    ensures r.Ok? ==> r.value == u.s
    ensures !u.Str? ==> r == Err([Expected(StringKind, u)])
    ensures u.Str? && !IsBalance(u.s) ==> r == Err([Rejected(u.s, NonIntegerBalance)])
  {
    match ValidateString(u)
    case Err(issues) => Err(issues)
    case Ok(s) => if IsBalance(s) then Ok(s) else Err([Rejected(s, NonIntegerBalance)])
  }

  /** The three `is` guards are io-ts's `string.is`: they accept every
      string, while each validator rejects exactly the strings of the wrong
      shape, and `"0x"` is rejected by all three. */
  lemma GuardsAcceptMalformedStrings(s: string)
    ensures IsString(Str(s))
    ensures ValidateEthereumAddress(Str(s)).Err? <==> !IsEthereumAddress(s)
    ensures ValidateEthereumTxHash(Str(s)).Err? <==> !IsEthereumTxHash(s)
    ensures ValidateBalance(Str(s)).Err? <==> !IsBalance(s)
    ensures s == "0x" ==> !IsEthereumAddress(s) && !IsEthereumTxHash(s) && !IsBalance(s)
  {
    if s == "0x" {
      assert !IsDecimalDigit(s[1]);
    }
  }

  /** `ethereumAddress.encode` (`hexToU8a(a, 160)`): the 20 bytes the 40 digits spell. */
  function EncodeEthereumAddress(s: string): (r: Option<seq<Byte>>)
    ensures r.Some? <==> IsEthereumAddress(s)
    ensures r.Some? ==> |r.value| == 20 && BigEndianValue(r.value) == HexValue(s[2..])
  {
    if IsEthereumAddress(s) then
      BytesOfHexValue(s[2..]);
      Some(BytesOfHex(s[2..]))
    else None
  }

  /** `ethereumTxHash.encode` (`hexToU8a(a, 256)`): the 32 bytes the 64 digits spell. */
  function EncodeEthereumTxHash(s: string): (r: Option<seq<Byte>>)
    ensures r.Some? <==> IsEthereumTxHash(s)
    ensures r.Some? ==> |r.value| == 32 && BigEndianValue(r.value) == HexValue(s[2..])
  {
    if IsEthereumTxHash(s) then
      BytesOfHexValue(s[2..]);
      Some(BytesOfHex(s[2..]))
    else None
  }

  /** `balanceOf.encode` (`new BN(a)`): the number a validated digit string denotes. */
  function EncodeBalance(s: string): Option<nat> {
    if IsBalance(s) then Some(DecimalValue(s)) else None
  }

  /** Every balance survives validation and encoding of its canonical numeral. */
  lemma {:induction false} BalanceRoundTrip(n: nat)
    ensures ValidateBalance(Str(DecimalString(n))) == Ok(DecimalString(n))
    ensures EncodeBalance(DecimalString(n)) == Some(n)
  {
    DecimalRoundTrip(n);
  }

  /** Leading zeros are accepted by validation and do not change the encoded balance. */
  lemma {:induction false} BalanceLeadingZeros(k: nat, s: string)
    requires IsBalance(s)
    ensures IsBalance(Zeros(k) + s)
    ensures EncodeBalance(Zeros(k) + s) == EncodeBalance(s)
  {
    LeadingZerosIgnored(k, s);
  }
}
