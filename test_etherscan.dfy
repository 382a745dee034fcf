/** `scripts/test-etherscan.ts`: a survey of the burn transfers of the token
    contract, window after window, checking that every group the reader
    yields is one block of the one contract and counting raw transfers and
    burns. */
module TestEtherscan {
  import opened Codec
  import opened EtherscanIo
  import opened EtherscanApi
  import EtherscanClient
  import Relay

  /** The assertions a yielded group can fail. */
  datatype CheckError =
    | EmptyBlock
    | BlockNumberMismatch(index: nat)
    | ContractMismatch(index: nat, actual: string)

  /** One transfer agrees with the group's block and the expected contract. */
  predicate Conforms(tx: TokenTransaction, blockNumber: string, contract: string) {
    tx.blockNumber == blockNumber && tx.contractAddress == contract
  }

  /** A group passes every assertion: non-empty, one block, one contract. */
  predicate ConsistentGroup(raw: seq<TokenTransaction>, contract: string) {
    && |raw| > 0
    && forall k | 0 <= k < |raw| :: Conforms(raw[k], raw[0].blockNumber, contract)
  }

  /** The first assertion of the `forEach` pass that fails from index `i`
      on: per transfer, the block number is asserted before the contract. */
  function FaultFrom(raw: seq<TokenTransaction>, contract: string, i: nat): Option<CheckError>
    requires 0 < |raw| && i <= |raw|
    decreases |raw| - i
  {
    if i == |raw| then None
    else if raw[i].blockNumber != raw[0].blockNumber then Some(BlockNumberMismatch(i))
    else if raw[i].contractAddress != contract then Some(ContractMismatch(i, raw[i].contractAddress))
    else FaultFrom(raw, contract, i + 1)
  }

  /** The assertion a group fails first, if any. */
  function GroupFault(raw: seq<TokenTransaction>, contract: string): Option<CheckError> {
    if raw == [] then Some(EmptyBlock) else FaultFrom(raw, contract, 0)
  }

  /** The pass from `i` on fails exactly when a later transfer does not
      conform, and then names the first such transfer and the first of its
      checks that fails. */
  lemma {:induction false} FaultFromFindsFirst(raw: seq<TokenTransaction>, contract: string, i: nat)
    requires 0 < |raw| && i <= |raw|
    decreases |raw| - i
    ensures var r := FaultFrom(raw, contract, i);
      && (r.None? <==> forall k | i <= k < |raw| :: Conforms(raw[k], raw[0].blockNumber, contract))
      && (r.Some? ==> r.value.BlockNumberMismatch? || r.value.ContractMismatch?)
      && (r.Some? ==>
            && i <= r.value.index < |raw|
            && !Conforms(raw[r.value.index], raw[0].blockNumber, contract)
            && forall k | i <= k < r.value.index :: Conforms(raw[k], raw[0].blockNumber, contract))
      && (r.Some? && r.value.BlockNumberMismatch? ==> raw[r.value.index].blockNumber != raw[0].blockNumber)
      && (r.Some? && r.value.ContractMismatch? ==>
            && raw[r.value.index].blockNumber == raw[0].blockNumber
            && r.value.actual == raw[r.value.index].contractAddress
            && r.value.actual != contract)
  {
    if i < |raw| && Conforms(raw[i], raw[0].blockNumber, contract) {
      FaultFromFindsFirst(raw, contract, i + 1);
    }
  }

  /** A group passes exactly when it is consistent; the empty-block
      assertion fires exactly for the empty group. */
  lemma GroupFaultIff(raw: seq<TokenTransaction>, contract: string)
    ensures GroupFault(raw, contract).None? <==> ConsistentGroup(raw, contract)
    ensures GroupFault(raw, contract) == Some(EmptyBlock) <==> raw == []
  {
    if raw != [] {
      FaultFromFindsFirst(raw, contract, 0);
    }
  }

  /** The empty-group assertion and the `forEach` pass over one group. */
  method CheckGroup(raw: seq<TokenTransaction>, contract: string) returns (err: Option<CheckError>)
    ensures err == GroupFault(raw, contract)
  {
    if |raw| == 0 {
      return Some(EmptyBlock);
    }
    var blockNumber := raw[0].blockNumber;
    for i := 0 to |raw|
      invariant FaultFrom(raw, contract, 0) == FaultFrom(raw, contract, i)
    {
      if raw[i].blockNumber != blockNumber {
        return Some(BlockNumberMismatch(i));
      }
      if raw[i].contractAddress != contract {
        return Some(ContractMismatch(i, raw[i].contractAddress));
      }
    }
    return None;
  }

  /** How `readTransactions` ends a window. */
  datatype WindowError = CheckFailed(fault: CheckError) | ReaderRaised(reason: FailureReason)

  datatype WindowOutcome =
    | Counted(rawCount: nat, burnCount: nat, lastBlock: nat)
    | Failed(error: WindowError)
    | Suspended

  /** Counts added in front of the rest of a window. */
  function Add(raw: nat, burn: nat, rest: WindowOutcome): WindowOutcome {
    if rest.Counted? then Counted(raw + rest.rawCount, burn + rest.burnCount, rest.lastBlock) else rest
  }

  /** The window once the generator is done. */
  function Close(halt: Halt, terminal: nat): WindowOutcome {
    match halt
    case Finished => Counted(0, 0, terminal)
    case Raised(reason) => Failed(ReaderRaised(reason))
    case Pending => Suspended
  }

  /** The reference behaviour of the loop of `readTransactions` over the
      yielded groups and the generator's terminal value. */
  function Tally(groups: seq<seq<TokenTransaction>>, halt: Halt, contract: string, terminal: nat): WindowOutcome
    decreases |groups|
  {
    if groups == [] then Close(halt, terminal)
    else match GroupFault(groups[0], contract)
      case Some(e) => Failed(CheckFailed(e))
      case None => Add(|groups[0]|, |Relay.Burns(groups[0])|, Tally(groups[1..], halt, contract, terminal))
  }

  function RawTotal(groups: seq<seq<TokenTransaction>>): nat {
    if groups == [] then 0 else |groups[0]| + RawTotal(groups[1..])
  }

  function BurnTotal(groups: seq<seq<TokenTransaction>>): nat {
    if groups == [] then 0 else |Relay.Burns(groups[0])| + BurnTotal(groups[1..])
  }

  /** Burns are counted among the raw transfers, so never outnumber them. */
  lemma {:induction false} BurnTotalAtMostRaw(groups: seq<seq<TokenTransaction>>)
    ensures BurnTotal(groups) <= RawTotal(groups)
  {
    if groups != [] {
      Relay.BurnsAreExactlyTheBurns(groups[0]);
      BurnTotalAtMostRaw(groups[1..]);
    }
  }

  /** A window is counted only when the generator finished and every group
      passed; its counts are then the window's totals and its last block
      the generator's value. */
  lemma {:induction false} TallyCounts(groups: seq<seq<TokenTransaction>>, halt: Halt, contract: string, terminal: nat)
    ensures Tally(groups, halt, contract, terminal).Counted? <==>
      halt.Finished? && forall k | 0 <= k < |groups| :: ConsistentGroup(groups[k], contract)
    ensures Tally(groups, halt, contract, terminal).Counted? ==>
      && Tally(groups, halt, contract, terminal).rawCount == RawTotal(groups)
      && Tally(groups, halt, contract, terminal).burnCount == BurnTotal(groups)
      && Tally(groups, halt, contract, terminal).lastBlock == terminal
  {
    if groups != [] {
      GroupFaultIff(groups[0], contract);
      TallyCounts(groups[1..], halt, contract, terminal);
      assert forall k | 1 <= k < |groups| :: groups[k] == groups[1..][k - 1];
    }
  }

  /** A failed assertion reports the first group that fails one, and the
      first assertion that group fails. */
  lemma {:induction false} TallyStopsAtFirstFault(groups: seq<seq<TokenTransaction>>, halt: Halt, contract: string, terminal: nat)
    ensures Tally(groups, halt, contract, terminal).Failed? && Tally(groups, halt, contract, terminal).error.CheckFailed? ==>
      exists k | 0 <= k < |groups| ::
        && GroupFault(groups[k], contract) == Some(Tally(groups, halt, contract, terminal).error.fault)
        && forall j | 0 <= j < k :: ConsistentGroup(groups[j], contract)
  {
    if groups != [] && GroupFault(groups[0], contract).None? {
      var t := Tally(groups, halt, contract, terminal);
      TallyStopsAtFirstFault(groups[1..], halt, contract, terminal);
      GroupFaultIff(groups[0], contract);
      if t.Failed? && t.error.CheckFailed? {
        var k :| 0 <= k < |groups[1..]| &&
          GroupFault(groups[1..][k], contract) == Some(t.error.fault) &&
          forall j | 0 <= j < k :: ConsistentGroup(groups[1..][j], contract);
        assert forall j | 1 <= j < k + 1 :: groups[j] == groups[1..][j - 1];
        assert GroupFault(groups[k + 1], contract) == Some(t.error.fault);
      }
    }
  }

  /** The window the script reads: from `startHeight` up to the height it
      read, or 0 when reading it failed. */
  function ChainHeight(heightData: Value, hexToNumber: string -> nat): (h: nat)
    ensures ReadHeight(heightData, hexToNumber).Ok? ==> h == ReadHeight(heightData, hexToNumber).value
    ensures ReadHeight(heightData, hexToNumber).Err? ==> h == 0
  {
    match ReadHeight(heightData, hexToNumber)
    case Ok(h) => h
    case Err(_) => 0
  }

  /** What `readTransactions` is given: the height probe's body, the page
      responses, and the generator's terminal value. */
  datatype WindowScript = WindowScript(heightData: Value, responses: seq<Response<TokenTransaction>>, terminal: nat)

  /** The reference outcome of one window starting at `startHeight`. */
  function WindowOf(startHeight: nat, contract: string, hexToNumber: string -> nat, script: WindowScript): WindowOutcome {
    var t := Drive(EtherscanClient.DefaultPageSize,
                   Window(ChainHeight(script.heightData, hexToNumber), startHeight, contract),
                   script.responses, 1, 0);
    Tally(t.pages, t.halt, contract, script.terminal)
  }

  /** A window whose reader reaches "no transactions" or a short page at
      response `k`, and whose groups all pass the checks, is counted: all the
      raw transfers and burns it read, and the generator's value as the last
      block. */
  lemma WindowReachesEnd(startHeight: nat, contract: string, hexToNumber: string -> nat, script: WindowScript, k: nat)
    requires k < |script.responses|
    requires forall i | 0 <= i < k ::
      Continues(EtherscanClient.DefaultPageSize, script.responses[i], RetriesAfter(script.responses[..i], 0))
    requires !Continues(EtherscanClient.DefaultPageSize, script.responses[k], RetriesAfter(script.responses[..k], 0))
    requires !ReadTokenTxPage(script.responses[k]).Failure?
    requires var t := Drive(EtherscanClient.DefaultPageSize,
                            Window(ChainHeight(script.heightData, hexToNumber), startHeight, contract),
                            script.responses, 1, 0);
      forall j | 0 <= j < |t.pages| :: ConsistentGroup(t.pages[j], contract)
    ensures var t := Drive(EtherscanClient.DefaultPageSize,
                           Window(ChainHeight(script.heightData, hexToNumber), startHeight, contract),
                           script.responses, 1, 0);
      WindowOf(startHeight, contract, hexToNumber, script) == Counted(RawTotal(t.pages), BurnTotal(t.pages), script.terminal)
  {
    var w := Window(ChainHeight(script.heightData, hexToNumber), startHeight, contract);
    var t := Drive(EtherscanClient.DefaultPageSize, w, script.responses, 1, 0);
    DriveStopsAt(EtherscanClient.DefaultPageSize, w, script.responses, 1, 0, k);
    TallyCounts(t.pages, t.halt, contract, script.terminal);
  }

  /** `readTransactions`: read the height (a failure leaves it 0), walk the
      generator, check and count each group, and return the totals with the
      generator's value as the last block. */
  method ReadTransactions(startHeight: nat, contract: string, hexToNumber: string -> nat, script: WindowScript)
    returns (chainHeight: nat, outcome: WindowOutcome)
    ensures chainHeight == ChainHeight(script.heightData, hexToNumber)
    ensures outcome == WindowOf(startHeight, contract, hexToNumber, script)
    ensures outcome.Counted? ==> outcome.burnCount <= outcome.rawCount && outcome.lastBlock == script.terminal
  {
    chainHeight := 0;
    var height := ReadHeight(script.heightData, hexToNumber);
    if height.Ok? {
      chainHeight := height.value;
    }
    var t := ReadTokenTx(EtherscanClient.DefaultPageSize, Window(chainHeight, startHeight, contract), script.responses);
    outcome := CountGroups(t.pages, t.halt, contract, script.terminal);
    TallyCounts(t.pages, t.halt, contract, script.terminal);
    BurnTotalAtMostRaw(t.pages);
  }

  /** The loop of `readTransactions` over the groups the generator yields:
      check each group, add up its raw and burn counts, and close the window
      the way the generator ended. */
  method CountGroups(groups: seq<seq<TokenTransaction>>, halt: Halt, contract: string, terminal: nat)
    returns (outcome: WindowOutcome)
    ensures outcome == Tally(groups, halt, contract, terminal)
  {
    var totalBurn: nat, totalRaw: nat := 0, 0;
    var i := 0;
    assert groups[0..] == groups;
    while i < |groups|
      invariant 0 <= i <= |groups|
      invariant Tally(groups, halt, contract, terminal) == Add(totalRaw, totalBurn, Tally(groups[i..], halt, contract, terminal))
    {
      TallyStep(groups, i, halt, contract, terminal);
      var raw := groups[i];
      var err := CheckGroup(raw, contract);
      if err.Some? {
        return Failed(CheckFailed(err.value));
      }
      totalBurn := totalBurn + |Relay.Burns(raw)|;
      totalRaw := totalRaw + |raw|;
      i := i + 1;
    }
    assert groups[i..] == [];
    outcome := Add(totalRaw, totalBurn, Close(halt, terminal));
  }

  /** One group of a window, in each of the ways it can go. */
  lemma TallyStep(groups: seq<seq<TokenTransaction>>, i: nat, halt: Halt, contract: string, terminal: nat)
    requires i < |groups|
    ensures GroupFault(groups[i], contract).Some? ==>
      Tally(groups[i..], halt, contract, terminal) == Failed(CheckFailed(GroupFault(groups[i], contract).value))
    ensures GroupFault(groups[i], contract).None? ==>
      Tally(groups[i..], halt, contract, terminal) ==
      Add(|groups[i]|, |Relay.Burns(groups[i])|, Tally(groups[i + 1..], halt, contract, terminal))
  {
    assert groups[i..][0] == groups[i] && groups[i..][1..] == groups[i + 1..];
  }

  /** The reader never yields an empty group, so the empty-block assertion
      of a window cannot fire. */
  lemma WindowNeverEmpty(startHeight: nat, contract: string, hexToNumber: string -> nat, script: WindowScript)
    ensures WindowOf(startHeight, contract, hexToNumber, script) != Failed(CheckFailed(EmptyBlock))
  {
    var t := Drive(EtherscanClient.DefaultPageSize,
                   Window(ChainHeight(script.heightData, hexToNumber), startHeight, contract),
                   script.responses, 1, 0);
    DriveYieldsEveryPage(EtherscanClient.DefaultPageSize,
                         Window(ChainHeight(script.heightData, hexToNumber), startHeight, contract),
                         script.responses, 1, 0);
    TallyStopsAtFirstFault(t.pages, t.halt, contract, script.terminal);
    forall k | 0 <= k < |t.pages| ensures GroupFault(t.pages[k], contract) != Some(EmptyBlock) {
      GroupFaultIff(t.pages[k], contract);
    }
  }

  function RawSum(outcomes: seq<WindowOutcome>): nat {
    if outcomes == [] then 0
    else (if outcomes[0].Counted? then outcomes[0].rawCount else 0) + RawSum(outcomes[1..])
  }

  function BurnSum(outcomes: seq<WindowOutcome>): nat {
    if outcomes == [] then 0
    else (if outcomes[0].Counted? then outcomes[0].burnCount else 0) + BurnSum(outcomes[1..])
  }

  lemma {:induction false} SumsAppend(outcomes: seq<WindowOutcome>, o: WindowOutcome)
    ensures RawSum(outcomes + [o]) == RawSum(outcomes) + (if o.Counted? then o.rawCount else 0)
    ensures BurnSum(outcomes + [o]) == BurnSum(outcomes) + (if o.Counted? then o.burnCount else 0)
  {
    if outcomes != [] {
      assert (outcomes + [o])[1..] == outcomes[1..] + [o];
      SumsAppend(outcomes[1..], o);
    } else {
      assert ([] + [o])[1..] == [];
    }
  }

  /** Each window's outcome is that of its script read from its start. */
  predicate Replays(starts: seq<nat>, outcomes: seq<WindowOutcome>, contract: string,
                    hexToNumber: string -> nat, scripts: seq<WindowScript>) {
    && |starts| == |outcomes| <= |scripts|
    && forall i | 0 <= i < |outcomes| :: outcomes[i] == WindowOf(starts[i], contract, hexToNumber, scripts[i])
  }

  lemma ReplaysAppend(starts: seq<nat>, outcomes: seq<WindowOutcome>, contract: string,
                      hexToNumber: string -> nat, scripts: seq<WindowScript>, start: nat, outcome: WindowOutcome)
    requires Replays(starts, outcomes, contract, hexToNumber, scripts) && |outcomes| < |scripts|
    requires outcome == WindowOf(start, contract, hexToNumber, scripts[|outcomes|])
    ensures Replays(starts + [start], outcomes + [outcome], contract, hexToNumber, scripts)
  {
  }

  /** Every window but the last counted some transfers, and each window
      starts one block above the previous window's last block. */
  predicate Chained(starts: seq<nat>, outcomes: seq<WindowOutcome>) {
    && |starts| == |outcomes|
    && forall i | 0 <= i < |outcomes| - 1 ::
         outcomes[i].Counted? && outcomes[i].rawCount > 0 && starts[i + 1] == outcomes[i].lastBlock + 1
  }

  lemma ChainedAppend(starts: seq<nat>, outcomes: seq<WindowOutcome>, start: nat, outcome: WindowOutcome)
    requires Chained(starts, outcomes) && |outcomes| > 0
    requires outcomes[|outcomes| - 1].Counted? && outcomes[|outcomes| - 1].rawCount > 0
    requires start == outcomes[|outcomes| - 1].lastBlock + 1
    ensures Chained(starts + [start], outcomes + [outcome])
  {
  }

  /** `run`'s loop over as many windows as are given: each window starts one
      block above the previous window's last block, the totals add up the
      windows' counts, and the session ends after the first window with no
      transfers. `starts` are the values `lastBlock` takes; a window that
      throws ends the session too. */
  method Run(contractHeight: nat, contract: string, hexToNumber: string -> nat, scripts: seq<WindowScript>)
    returns (starts: seq<nat>, outcomes: seq<WindowOutcome>, totalRaw: nat, totalBurn: nat)
    ensures scripts != [] ==> |starts| > 0 && starts[0] == contractHeight
    ensures Replays(starts, outcomes, contract, hexToNumber, scripts)
    ensures Chained(starts, outcomes)
    ensures |outcomes| < |scripts| ==>
      |outcomes| > 0 && (!outcomes[|outcomes| - 1].Counted? || outcomes[|outcomes| - 1].rawCount == 0)
    ensures totalRaw == RawSum(outcomes) && totalBurn == BurnSum(outcomes)
    ensures totalBurn <= totalRaw
  {
    totalBurn, totalRaw := 0, 0;
    var lastBlock := contractHeight;
    starts, outcomes := [], [];
    while |outcomes| < |scripts|
      invariant |starts| == |outcomes|
      invariant |outcomes| == 0 ==> lastBlock == contractHeight
      invariant |outcomes| > 0 ==> starts[0] == contractHeight
      invariant Replays(starts, outcomes, contract, hexToNumber, scripts)
      invariant Chained(starts, outcomes)
      invariant |outcomes| > 0 ==>
        && outcomes[|outcomes| - 1].Counted? && outcomes[|outcomes| - 1].rawCount > 0
        && lastBlock == outcomes[|outcomes| - 1].lastBlock + 1
      invariant totalRaw == RawSum(outcomes) && totalBurn == BurnSum(outcomes) && totalBurn <= totalRaw
      decreases |scripts| - |outcomes|
    {
      var _, outcome := ReadTransactions(lastBlock, contract, hexToNumber, scripts[|outcomes|]);
      SumsAppend(outcomes, outcome);
      ReplaysAppend(starts, outcomes, contract, hexToNumber, scripts, lastBlock, outcome);
      if outcomes != [] {
        ChainedAppend(starts, outcomes, lastBlock, outcome);
      }
      starts, outcomes := starts + [lastBlock], outcomes + [outcome];
      if !outcome.Counted? {
        return;
      }
      totalBurn := totalBurn + outcome.burnCount;
      totalRaw := totalRaw + outcome.rawCount;
      lastBlock := outcome.lastBlock + 1;
      if outcome.rawCount == 0 {
        return;
      }
    }
  }

  /** The end of a window as written: `result.value.toString()` on the
      generator's return value, which throws a TypeError for `undefined`
      or `null` before the totals are returned. */
  datatype WindowEnd = Totals(rawCount: nat, burnCount: nat, lastBlock: int) | TypeError

  function FinishWindowAsWritten(returned: Value, totalRaw: nat, totalBurn: nat): (r: WindowEnd)
    requires returned.Undefined? || returned.Null? || returned.Num?
    ensures r.TypeError? <==> !returned.Num?
    ensures r.Totals? ==> r == Totals(totalRaw, totalBurn, returned.n)
  {
    if returned.Num? then Totals(totalRaw, totalBurn, returned.n) else TypeError
  }

  /** The generator returns nothing, so every window that reaches its end
      throws instead of reporting its totals, and the session never gets
      past its first window. */
  lemma VoidReturnAbortsWindow(totalRaw: nat, totalBurn: nat)
    ensures FinishWindowAsWritten(Undefined, totalRaw, totalBurn) == TypeError
  {
  }
}
