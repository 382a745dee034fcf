/** The wire schemas of `src/etherscan/io.ts`: digit-string literals, one
    token-transfer record, and the envelope of a successful transfer query. */
module EtherscanIo {
  import opened Codec
  import opened Lexical

  /** A string that passed `/^\d+$/`, the decoded form of `positiveInteger`. */
  type DigitString = s: string | IsDigitString(s) witness "0"

  function NotPositiveInteger(s: string): string {
    "\"" + s + "\" is not a positive integer"
  }

  /** `positiveIntegerLiteral.validate`, which `positiveInteger` reuses as its
      own validate: a string of decimal digits, "0" included. */
  function ValidatePositiveInteger(u: Value): (r: Validation<DigitString>)
    ensures r.Ok? <==> u.Str? && IsDigitString(u.s)
    ensures r.Ok? ==> r.value == u.s
    ensures !u.Str? ==> r == Err([Expected(StringKind, u)])
    ensures u.Str? && !IsDigitString(u.s) ==> r == Err([Rejected(u.s, NotPositiveInteger(u.s))])
  {
    match ValidateString(u)
    case Err(issues) => Err(issues)
    case Ok(s) => if IsDigitString(s) then Ok(s) else Err([Rejected(s, NotPositiveInteger(s))])
  }

  /** `positiveInteger.encode`: `parseInt` of the kept digit string. */
  function EncodePositiveInteger(s: DigitString): nat {
    DecimalValue(s)
  }

  /** The decoded value is the digit string itself; only encoding turns it into
      the number, and that number's numeral decodes back to itself. */
  lemma {:induction false} PositiveIntegerRoundTrip(n: nat)
    ensures ValidatePositiveInteger(Str(DecimalString(n))) == Ok(DecimalString(n))
    ensures EncodePositiveInteger(DecimalString(n)) == n
  {
    DecimalRoundTrip(n);
  }

  /** `TypeOf<typeof tokenTransaction>` */
  datatype TokenTransaction = TokenTransaction(
    blockNumber: DigitString,
    contractAddress: string,
    from: string,
    hash: string,
    to: string,
    value: DigitString)

  predicate HasDigits(u: Value, key: string) {
    Get(u, key).Str? && IsDigitString(Get(u, key).s)
  }

  predicate HasString(u: Value, key: string) {
    Get(u, key).Str?
  }

  /** `tokenTransaction.decode`: an object whose six properties each validate;
      the issues of every failing property are reported, in declaration order. */
  function DecodeTokenTransaction(u: Value): (r: Validation<TokenTransaction>)
    ensures r.Ok? <==>
      && u.Obj?
      && HasDigits(u, "blockNumber") && HasString(u, "contractAddress") && HasString(u, "from")
      && HasString(u, "hash") && HasString(u, "to") && HasDigits(u, "value")
    ensures r.Ok? ==>
      && Str(r.value.blockNumber) == Get(u, "blockNumber")
      && Str(r.value.contractAddress) == Get(u, "contractAddress")
      && Str(r.value.from) == Get(u, "from")
      && Str(r.value.hash) == Get(u, "hash")
      && Str(r.value.to) == Get(u, "to")
      && Str(r.value.value) == Get(u, "value")
    ensures r.Err? ==> |r.error| > 0
  {
    if !u.Obj? then Err([Expected(RecordKind, u)])
    else
      var blockNumber := ValidatePositiveInteger(Get(u, "blockNumber"));
      var contractAddress := ValidateString(Get(u, "contractAddress"));
      var from := ValidateString(Get(u, "from"));
      var hash := ValidateString(Get(u, "hash"));
      var to := ValidateString(Get(u, "to"));
      var value := ValidatePositiveInteger(Get(u, "value"));
      if blockNumber.Ok? && contractAddress.Ok? && from.Ok? && hash.Ok? && to.Ok? && value.Ok? then
        Ok(TokenTransaction(blockNumber.value, contractAddress.value, from.value, hash.value, to.value, value.value))
      else
        Err(IssuesOf(blockNumber) + IssuesOf(contractAddress) + IssuesOf(from)
            + IssuesOf(hash) + IssuesOf(to) + IssuesOf(value))
  }

  /** The JSON object a transfer record is sent as. */
  function TokenTransactionValue(tx: TokenTransaction): Value {
    Obj(map[
      "blockNumber" := Str(tx.blockNumber),
      "contractAddress" := Str(tx.contractAddress),
      "from" := Str(tx.from),
      "hash" := Str(tx.hash),
      "to" := Str(tx.to),
      "value" := Str(tx.value)])
  }

  lemma TokenTransactionRoundTrip(tx: TokenTransaction)
    ensures DecodeTokenTransaction(TokenTransactionValue(tx)) == Ok(tx)
  {
  }

  /** io-ts `array(tokenTransaction)` on the elements: every element must
      decode, and the issues of all failing elements are collected. */
  function DecodeEach(items: seq<Value>): (r: Validation<seq<TokenTransaction>>)
    ensures r.Ok? <==> forall i | 0 <= i < |items| :: DecodeTokenTransaction(items[i]).Ok?
    ensures r.Ok? ==> |r.value| == |items|
    ensures r.Ok? ==> forall i | 0 <= i < |items| :: DecodeTokenTransaction(items[i]) == Ok(r.value[i])
    ensures r.Err? ==> |r.error| > 0
  {
    if items == [] then Ok([])
    else
      var head := DecodeTokenTransaction(items[0]);
      var tail := DecodeEach(items[1..]);
      if head.Ok? && tail.Ok? then
        Ok([head.value] + tail.value)
      else
        Err(IssuesOf(head) + IssuesOf(tail))
  }

  /** io-ts `array(tokenTransaction)`: an array whose elements all decode. */
  function DecodeTransactionArray(u: Value): (r: Validation<seq<TokenTransaction>>)
    ensures r.Ok? <==> u.Arr? && DecodeEach(u.items).Ok?
    ensures r.Ok? ==> r == DecodeEach(u.items)
  {
    if u.Arr? then DecodeEach(u.items) else Err([Expected(ArrayKind, u)])
  }

  /** `TypeOf<typeof tokenTransactionQueryResponse>` */
  datatype QueryResponse = QueryResponse(message: string, result: seq<TokenTransaction>, status: string)

  /** `tokenTransactionQueryResponse.decode`: `status` is literally '1',
      `message` literally 'OK' and `result` an array of decodable records. */
  function DecodeQueryResponse(u: Value): (r: Validation<QueryResponse>)
    ensures r.Ok? <==>
      && u.Obj?
      && Get(u, "status") == Str("1")
      && Get(u, "message") == Str("OK")
      && Get(u, "result").Arr?
      && forall i | 0 <= i < |Get(u, "result").items| :: DecodeTokenTransaction(Get(u, "result").items[i]).Ok?
    ensures r.Ok? ==> r.value.status == "1" && r.value.message == "OK"
    ensures r.Ok? ==> |r.value.result| == |Get(u, "result").items|
    ensures r.Ok? ==> forall i | 0 <= i < |r.value.result| ::
      DecodeTokenTransaction(Get(u, "result").items[i]) == Ok(r.value.result[i])
    ensures r.Err? ==> |r.error| > 0
  {
    if !u.Obj? then Err([Expected(RecordKind, u)])
    else
      var message := ValidateLiteral(Get(u, "message"), "OK");
      var result := DecodeTransactionArray(Get(u, "result"));
      var status := ValidateLiteral(Get(u, "status"), "1");
      if message.Ok? && result.Ok? && status.Ok? then
        Ok(QueryResponse(message.value, result.value, status.value))
      else
        Err(IssuesOf(message) + IssuesOf(result) + IssuesOf(status))
  }

  /** A single undecodable record spoils the whole page. */
  lemma OneBadRecordRejectsResponse(u: Value, i: nat)
    requires Get(u, "result").Arr? && i < |Get(u, "result").items|
    requires DecodeTokenTransaction(Get(u, "result").items[i]).Err?
    ensures DecodeQueryResponse(u).Err?
  {
  }

  /** The "result window too large" answer (`status` '0', `result` null) and
      any null result are rejected, never read as an empty page. */
  lemma NullOrNoDataRejected(u: Value)
    requires Get(u, "result") == Null || Get(u, "status") == Str("0")
    ensures DecodeQueryResponse(u).Err?
  {
  }

  function ResponseValue(txs: seq<TokenTransaction>): Value {
    Obj(map[
      "message" := Str("OK"),
      "result" := Arr(seq(|txs|, i requires 0 <= i < |txs| => TokenTransactionValue(txs[i]))),
      "status" := Str("1")])
  }

  /** Every list of records, sent as a successful response, decodes back to itself. */
  lemma {:induction false} ResponseRoundTrip(txs: seq<TokenTransaction>)
    ensures DecodeQueryResponse(ResponseValue(txs)) == Ok(QueryResponse("OK", txs, "1"))
  {
    var items := Get(ResponseValue(txs), "result").items;
    forall i | 0 <= i < |items|
      ensures DecodeTokenTransaction(items[i]) == Ok(txs[i])
    {
      TokenTransactionRoundTrip(txs[i]);
    }
    var r := DecodeQueryResponse(ResponseValue(txs));
    assert r.value.result == txs;
  }
}
