/** `src/relay.ts`: one relay pass reads the burn transfers above the
    watermark from Etherscan, turns every group of burns into claims and
    submits them to the destination ledger, treating "already recorded" as
    success; `run` repeats the pass from the higher of its own and the
    destination's watermark. */
module Relay {
  import opened Codec
  import opened Lexical
  import opened EtherscanIo
  import opened PhalaData
  import opened EtherscanApi
  import EtherscanClient
  import opened PhalaSubmit

  /** The sink address whose incoming transfers are burns. */
  const DeadAddress := "0x000000000000000000000000000000000000dead"

  /** The source token's smallest units per destination unit. */
  const AmountDivisor: nat := 100

  predicate IsBurn(tx: TokenTransaction) {
    tx.to == DeadAddress
  }

  /** `filter(tx => tx.to === '0x…dead')` */
  function Burns(group: seq<TokenTransaction>): seq<TokenTransaction> {
    if group == [] then []
    else (if IsBurn(group[0]) then [group[0]] else []) + Burns(group[1..])
  }

  /** The filter keeps exactly the burns, each from the group, and no more of them than the group holds. */
  lemma {:induction false} BurnsAreExactlyTheBurns(group: seq<TokenTransaction>)
    ensures |Burns(group)| <= |group|
    ensures forall tx | tx in Burns(group) :: IsBurn(tx) && tx in group
    ensures forall tx | tx in group && IsBurn(tx) :: tx in Burns(group)
  {
    if group != [] {
      BurnsAreExactlyTheBurns(group[1..]);
      assert forall tx | tx in group :: tx == group[0] || tx in group[1..];
    }
  }

  /** The filter keeps the original order: filtering distributes over concatenation. */
  lemma {:induction false} BurnsKeepOrder(g1: seq<TokenTransaction>, g2: seq<TokenTransaction>)
    ensures Burns(g1 + g2) == Burns(g1) + Burns(g2)
  {
    if g1 != [] {
      assert (g1 + g2)[1..] == g1[1..] + g2;
      BurnsKeepOrder(g1[1..], g2);
    } else {
      assert g1 + g2 == g2;
    }
  }

  /** `{ address, amount, original: tx, tx: hash }` */
  datatype Claim = Claim(address: seq<Byte>, amount: nat, tx: seq<Byte>, original: TokenTransaction)

  /** The claim for one burn: the sender's 20-byte address, the value divided
      by 100 with truncation, and the 32-byte transaction hash. The encoders
      are modelled on validated strings only, so a hash or sender of the
      wrong shape counts as a failure here. */
  function BuildClaim(tx: TokenTransaction): Option<Claim> {
    var hash := EncodeEthereumTxHash(tx.hash);
    var address := EncodeEthereumAddress(tx.from);
    var amount := DecimalValue(tx.value) / AmountDivisor;
    if hash.Some? && address.Some? then Some(Claim(address.value, amount, hash.value, tx)) else None
  }

  /** A claim exists exactly for a well-formed hash and sender; it carries
      the burn, its value in destination units rounded down, and the bytes
      the sender and the hash denote. */
  lemma BuildClaimEncodes(tx: TokenTransaction)
    ensures BuildClaim(tx).Some? <==> IsEthereumTxHash(tx.hash) && IsEthereumAddress(tx.from)
    ensures BuildClaim(tx).Some? ==>
      var c := BuildClaim(tx).value;
      && c.original == tx
      && c.amount * AmountDivisor <= DecimalValue(tx.value) < (c.amount + 1) * AmountDivisor
      && |c.address| == 20 && BigEndianValue(c.address) == HexValue(tx.from[2..])
      && |c.tx| == 32 && BigEndianValue(c.tx) == HexValue(tx.hash[2..])
  {
  }

  /** `burns.map(…)`: the claims of all burns in order, or the first burn whose encoding throws. */
  function BuildClaims(burns: seq<TokenTransaction>): (r: Result<seq<Claim>, TokenTransaction>)
    ensures r.Ok? ==> |r.value| == |burns|
  {
    if burns == [] then Ok([])
    else match BuildClaim(burns[0])
      case None => Err(burns[0])
      case Some(claim) =>
        match BuildClaims(burns[1..])
        case Err(tx) => Err(tx)
        case Ok(claims) => Ok([claim] + claims)
  }

  /** Claim `i` is the claim of burn `i`. */
  lemma {:induction false} BuildClaimsMapsInOrder(burns: seq<TokenTransaction>)
    ensures BuildClaims(burns).Ok? ==>
      forall i | 0 <= i < |burns| :: BuildClaim(burns[i]) == Some(BuildClaims(burns).value[i])
  {
    if burns != [] && BuildClaim(burns[0]).Some? {
      BuildClaimsMapsInOrder(burns[1..]);
      if BuildClaims(burns).Ok? {
        var claims := BuildClaims(burns).value;
        assert claims == [BuildClaim(burns[0]).value] + BuildClaims(burns[1..]).value;
        forall i | 1 <= i < |burns| ensures BuildClaim(burns[i]) == Some(claims[i]) {
          assert burns[i] == burns[1..][i - 1];
        }
      }
    }
  }

  /** A failure names the first burn whose encoding throws. */
  lemma {:induction false} BuildClaimsFailsAtFirst(burns: seq<TokenTransaction>)
    ensures BuildClaims(burns).Err? ==> exists i | 0 <= i < |burns| ::
      && burns[i] == BuildClaims(burns).error
      && BuildClaim(burns[i]).None?
      && forall j | 0 <= j < i :: BuildClaim(burns[j]).Some?
  {
    if burns != [] && BuildClaim(burns[0]).Some? {
      BuildClaimsFailsAtFirst(burns[1..]);
      if BuildClaims(burns).Err? {
        var i :| 0 <= i < |burns[1..]| && burns[1..][i] == BuildClaims(burns).error &&
          BuildClaim(burns[1..][i]).None? && forall j | 0 <= j < i :: BuildClaim(burns[1..][j]).Some?;
        assert forall j | 1 <= j <= i :: burns[j] == burns[1..][j - 1];
        assert burns[i + 1] == burns[1..][i];
      }
    }
  }

  /** Why a relay pass stopped with an exception. */
  datatype RelayError =
    | EmptyBlock
    | EncodingFailed(tx: TokenTransaction)
    | SubmitFailed(outcome: SubmitOutcome)
    | ReaderFailed(reason: FailureReason)
    | HeightUnavailable(data: Value)

  /** One `storeErc20BurnedTransaction(blockNumber, burns, alice)` call. */
  datatype Submission = Submission(height: nat, claims: seq<Claim>)

  /** The body of the pass for one yielded group: an empty group is an
      assertion failure; a group without burns is skipped (`None`); otherwise
      the submission for the block of the group's first transaction. */
  function PrepareGroup(group: seq<TokenTransaction>): (r: Result<Option<Submission>, RelayError>)
    ensures group == [] <==> r == Err(EmptyBlock)
    ensures group != [] ==> (r == Ok(None) <==> Burns(group) == [])
    ensures r.Ok? && r.value.Some? ==>
      && r.value.value.height == DecimalValue(group[0].blockNumber)
      && r.value.value.claims != []
      && BuildClaims(Burns(group)) == Ok(r.value.value.claims)
    ensures r.Err? && group != [] ==> r.error.EncodingFailed? && BuildClaims(Burns(group)) == Err(r.error.tx)
  {
    if group == [] then Err(EmptyBlock)
    else
      var blockNumber := DecimalValue(group[0].blockNumber);
      match BuildClaims(Burns(group))
      case Err(tx) => Err(EncodingFailed(tx))
      case Ok(claims) => if claims == [] then Ok(None) else Ok(Some(Submission(blockNumber, claims)))
  }

  /** How a pass over the generator ended: with the generator's return value,
      with an exception, or still waiting on the source or the destination. */
  datatype Forwarded = Returned(height: nat) | Threw(error: RelayError) | Waiting

  datatype Relayed = Relayed(submissions: seq<Submission>, result: Forwarded)

  /** The pass once the generator is done: its return value, its exception, or still waiting. */
  function Finish(halt: Halt, terminal: nat): Forwarded {
    match halt
    case Finished => Returned(terminal)
    case Raised(reason) => Threw(ReaderFailed(reason))
    case Pending => Waiting
  }

  /** The reference behaviour of `forwardTransactions` over the yielded
      groups, the submit outcomes in call order, and the generator's
      terminal value. */
  function Forward(groups: seq<seq<TokenTransaction>>, halt: Halt, terminal: nat, outcomes: seq<SubmitOutcome>): Relayed
    decreases |groups|
  {
    if groups == [] then Relayed([], Finish(halt, terminal))
    else match PrepareGroup(groups[0])
      case Err(e) => Relayed([], Threw(e))
      case Ok(None) => Forward(groups[1..], halt, terminal, outcomes)
      case Ok(Some(sub)) =>
        if outcomes == [] then Relayed([sub], Waiting)
        else if outcomes[0].OtherError? then Relayed([sub], Threw(SubmitFailed(outcomes[0])))
        else
          Then([sub], Forward(groups[1..], halt, terminal, outcomes[1..]))
  }

  /** `subs` submitted before the rest of a pass. */
  function Then(subs: seq<Submission>, rest: Relayed): Relayed {
    Relayed(subs + rest.submissions, rest.result)
  }

  lemma ThenTwice(a: seq<Submission>, b: seq<Submission>, rest: Relayed)
    ensures Then(a, Then(b, rest)) == Then(a + b, rest)
  {
    assert a + (b + rest.submissions) == (a + b) + rest.submissions;
  }

  /** One group of a pass, in each of the ways it can go on. */
  lemma ForwardStep(groups: seq<seq<TokenTransaction>>, halt: Halt, terminal: nat, outcomes: seq<SubmitOutcome>)
    requires groups != [] && PrepareGroup(groups[0]).Ok?
    ensures PrepareGroup(groups[0]).value.None? ==>
      Forward(groups, halt, terminal, outcomes) == Forward(groups[1..], halt, terminal, outcomes)
    ensures PrepareGroup(groups[0]).value.Some? && outcomes != [] && !outcomes[0].OtherError? ==>
      Forward(groups, halt, terminal, outcomes) ==
      Then([PrepareGroup(groups[0]).value.value], Forward(groups[1..], halt, terminal, outcomes[1..]))
  {
  }

  /** The submissions the groups call for when every group passes, in order. */
  function SubmissionsOf(groups: seq<seq<TokenTransaction>>): seq<Submission> {
    if groups == [] then []
    else
      (match PrepareGroup(groups[0]) case Ok(Some(sub)) => [sub] case _ => []) + SubmissionsOf(groups[1..])
  }

  /** The window one pass reads: from `startBlock` up to the source height. */
  function PassWindow(startBlock: nat, ethHeight: nat, contract: string): Window {
    Window(ethHeight, startBlock, contract)
  }

  /** `forwardTransactions`: pull group after group from the generator,
      submit the claims of each group that has burns, and return the
      generator's value when it is done. */
  method ForwardTransactions(startBlock: nat, ethHeight: nat, contract: string,
                             responses: seq<Response<TokenTransaction>>, terminal: nat,
                             outcomes: seq<SubmitOutcome>)
    returns (r: Relayed)
    ensures
      var t := Drive(EtherscanClient.DefaultPageSize, PassWindow(startBlock, ethHeight, contract), responses, 1, 0);
      r == Forward(t.pages, t.halt, terminal, outcomes)
  {
    var t := ReadTokenTx(EtherscanClient.DefaultPageSize, PassWindow(startBlock, ethHeight, contract), responses);
    var groups := t.pages;
    ghost var whole := Forward(groups, t.halt, terminal, outcomes);
    var i, j := 0, 0;
    var submissions: seq<Submission> := [];
    var stopped: Option<Forwarded> := None;
    assert groups[0..] == groups && outcomes[0..] == outcomes;
    assert whole == Then([], whole);
    while stopped.None? && i < |groups|
      invariant 0 <= i <= |groups| && 0 <= j <= |outcomes|
      invariant stopped.None? ==> whole == Then(submissions, Forward(groups[i..], t.halt, terminal, outcomes[j..]))
      invariant stopped.Some? ==> whole == Relayed(submissions, stopped.value)
      decreases |groups| - i
    {
      ghost var here := groups[i..];
      assert here[0] == groups[i] && here[1..] == groups[i + 1..];
      var prepared := PrepareGroup(groups[i]);
      if prepared.Err? {
        stopped := Some(Threw(prepared.error));
      } else if prepared.value.Some? {
        var sub := prepared.value.value;
        if j == |outcomes| {
          stopped := Some(Waiting);
        } else if outcomes[j].OtherError? {
          stopped := Some(Threw(SubmitFailed(outcomes[j])));
        } else {
          assert outcomes[j..][0] == outcomes[j] && outcomes[j..][1..] == outcomes[j + 1..];
          ForwardStep(here, t.halt, terminal, outcomes[j..]);
          ThenTwice(submissions, [sub], Forward(groups[i + 1..], t.halt, terminal, outcomes[j + 1..]));
          j := j + 1;
        }
        submissions := submissions + [sub];
      } else {
        ForwardStep(here, t.halt, terminal, outcomes[j..]);
      }
      i := i + 1;
    }
    if stopped.None? {
      assert groups[i..] == [];
      assert submissions + [] == submissions;
      r := Relayed(submissions, Finish(t.halt, terminal));
    } else {
      r := Relayed(submissions, stopped.value);
    }
  }

  /** The submissions of a pass are those its groups call for, in order, up
      to the group where it stopped: no burn group is skipped or repeated. */
  lemma {:induction false} ForwardSubmitsInOrder(groups: seq<seq<TokenTransaction>>, halt: Halt, terminal: nat, outcomes: seq<SubmitOutcome>)
    ensures exists k | 0 <= k <= |groups| :: Forward(groups, halt, terminal, outcomes).submissions == SubmissionsOf(groups[..k])
  {
    var r := Forward(groups, halt, terminal, outcomes);
    if groups == [] {
      assert r.submissions == SubmissionsOf(groups[..0]);
    } else {
      var p := PrepareGroup(groups[0]);
      assert groups[..1][1..] == [];
      if p.Err? {
        assert r.submissions == SubmissionsOf(groups[..0]);
      } else if p.value.Some? && (outcomes == [] || outcomes[0].OtherError?) {
        assert r.submissions == SubmissionsOf(groups[..1]);
      } else {
        var outs := if p.value.None? then outcomes else outcomes[1..];
        ForwardSubmitsInOrder(groups[1..], halt, terminal, outs);
        var k :| 0 <= k <= |groups[1..]| && Forward(groups[1..], halt, terminal, outs).submissions == SubmissionsOf(groups[1..][..k]);
        assert groups[..k + 1][0] == groups[0] && groups[..k + 1][1..] == groups[1..][..k];
        assert r.submissions == SubmissionsOf(groups[..k + 1]);
      }
    }
  }

  /** "Already recorded" is success: when every group passes and no
      submission fails other than as a duplicate, a pass makes every
      submission its groups call for and ends as the generator does. */
  lemma {:induction false} DuplicatesAreSuccess(groups: seq<seq<TokenTransaction>>, halt: Halt, terminal: nat, outcomes: seq<SubmitOutcome>)
    requires forall k | 0 <= k < |groups| :: PrepareGroup(groups[k]).Ok?
    requires |outcomes| >= |SubmissionsOf(groups)|
    requires forall i | 0 <= i < |SubmissionsOf(groups)| :: !outcomes[i].OtherError?
    ensures Forward(groups, halt, terminal, outcomes) == Relayed(SubmissionsOf(groups), Finish(halt, terminal))
  {
    if groups != [] {
      var p := PrepareGroup(groups[0]);
      if p.value.None? {
        DuplicatesAreSuccess(groups[1..], halt, terminal, outcomes);
      } else {
        assert SubmissionsOf(groups) == [p.value.value] + SubmissionsOf(groups[1..]);
        assert forall i | 0 <= i < |SubmissionsOf(groups[1..])| :: outcomes[1..][i] == outcomes[i + 1];
        DuplicatesAreSuccess(groups[1..], halt, terminal, outcomes[1..]);
      }
    }
  }

  /** A pass returns only when the generator finished, and returns its value. */
  lemma {:induction false} ForwardReturnsTerminal(groups: seq<seq<TokenTransaction>>, halt: Halt, terminal: nat, outcomes: seq<SubmitOutcome>)
    ensures Forward(groups, halt, terminal, outcomes).result.Returned? ==>
      halt.Finished? && Forward(groups, halt, terminal, outcomes).result.height == terminal
  {
    if groups != [] {
      var p := PrepareGroup(groups[0]);
      if p.Ok? && p.value.None? {
        ForwardStep(groups, halt, terminal, outcomes);
        ForwardReturnsTerminal(groups[1..], halt, terminal, outcomes);
      } else if p.Ok? && outcomes != [] && !outcomes[0].OtherError? {
        ForwardStep(groups, halt, terminal, outcomes);
        ForwardReturnsTerminal(groups[1..], halt, terminal, outcomes[1..]);
      }
    }
  }

  /** A pass rethrows a reader error only when the generator threw it, and
      stops on an empty-block assertion only when a group was empty. */
  lemma {:induction false} ForwardThrowsOnlyWithCause(groups: seq<seq<TokenTransaction>>, halt: Halt, terminal: nat, outcomes: seq<SubmitOutcome>)
    ensures Forward(groups, halt, terminal, outcomes).result == Threw(EmptyBlock) ==> [] in groups
    ensures Forward(groups, halt, terminal, outcomes).result.Threw? && Forward(groups, halt, terminal, outcomes).result.error.ReaderFailed? ==>
      halt == Raised(Forward(groups, halt, terminal, outcomes).result.error.reason)
  {
    if groups != [] {
      var p := PrepareGroup(groups[0]);
      if p.Ok? && p.value.None? {
        ForwardStep(groups, halt, terminal, outcomes);
        ForwardThrowsOnlyWithCause(groups[1..], halt, terminal, outcomes);
      } else if p.Ok? && outcomes != [] && !outcomes[0].OtherError? {
        ForwardStep(groups, halt, terminal, outcomes);
        ForwardThrowsOnlyWithCause(groups[1..], halt, terminal, outcomes[1..]);
      }
      if [] in groups[1..] {
        assert [] in groups;
      }
    }
  }

  /** A submission error other than a duplicate ends `r` as the answer to its
      last submission, every earlier one having been stored or a duplicate. */
  predicate AnswersLastSubmission(r: Relayed, outcomes: seq<SubmitOutcome>) {
    r.result.Threw? && r.result.error.SubmitFailed? ==>
      var n := |r.submissions|;
      && 0 < n <= |outcomes|
      && outcomes[n - 1] == r.result.error.outcome
      && outcomes[n - 1].OtherError?
      && forall i | 0 <= i < n - 1 :: !outcomes[i].OtherError?
  }

  /** A stored or duplicate submission in front keeps the rest's answer. */
  lemma AnswersAfterSuccess(sub: Submission, rest: Relayed, outcomes: seq<SubmitOutcome>)
    requires outcomes != [] && !outcomes[0].OtherError?
    requires AnswersLastSubmission(rest, outcomes[1..])
    ensures AnswersLastSubmission(Then([sub], rest), outcomes)
  {
    var r := Then([sub], rest);
    if r.result.Threw? && r.result.error.SubmitFailed? {
      var m := |rest.submissions|;
      assert |r.submissions| == m + 1;
      assert outcomes[m] == outcomes[1..][m - 1];
      forall i | 0 <= i < m ensures !outcomes[i].OtherError? {
        if i > 0 {
          assert outcomes[i] == outcomes[1..][i - 1];
        }
      }
    }
  }

  /** Any submission error other than a duplicate is rethrown at once. */
  lemma {:induction false} ForwardRethrowsSubmitError(groups: seq<seq<TokenTransaction>>, halt: Halt, terminal: nat, outcomes: seq<SubmitOutcome>)
    ensures AnswersLastSubmission(Forward(groups, halt, terminal, outcomes), outcomes)
  {
    if groups != [] {
      var p := PrepareGroup(groups[0]);
      if p.Ok? && p.value.None? {
        ForwardStep(groups, halt, terminal, outcomes);
        ForwardRethrowsSubmitError(groups[1..], halt, terminal, outcomes);
      } else if p.Ok? && outcomes != [] && !outcomes[0].OtherError? {
        ForwardStep(groups, halt, terminal, outcomes);
        ForwardRethrowsSubmitError(groups[1..], halt, terminal, outcomes[1..]);
        AnswersAfterSuccess(p.value.value, Forward(groups[1..], halt, terminal, outcomes[1..]), outcomes);
      }
    }
  }

  /** Only groups with burns are submitted, each at the height of its block
      and with the claims of its burns. */
  lemma {:induction false} SubmissionsCarryBurns(groups: seq<seq<TokenTransaction>>)
    ensures forall s | s in SubmissionsOf(groups) ::
      s.claims != [] &&
      exists g: seq<TokenTransaction> | g in groups :: g != [] && s.height == DecimalValue(g[0].blockNumber) && BuildClaims(Burns(g)) == Ok(s.claims)
  {
    if groups != [] {
      SubmissionsCarryBurns(groups[1..]);
      assert forall g | g in groups[1..] :: g in groups;
    }
  }

  /** The reader never yields an empty group, so the empty-block assertion
      of a pass cannot fire. */
  lemma ReaderNeverYieldsEmptyBlock(w: Window, responses: seq<Response<TokenTransaction>>, terminal: nat, outcomes: seq<SubmitOutcome>)
    ensures
      var t := Drive(EtherscanClient.DefaultPageSize, w, responses, 1, 0);
      Forward(t.pages, t.halt, terminal, outcomes).result != Threw(EmptyBlock)
  {
    var t := Drive(EtherscanClient.DefaultPageSize, w, responses, 1, 0);
    DriveYieldsEveryPage(EtherscanClient.DefaultPageSize, w, responses, 1, 0);
    ForwardThrowsOnlyWithCause(t.pages, t.halt, terminal, outcomes);
  }

  /** A pass whose reader reaches "no transactions" or a short page at
      response `k`, whose groups all prepare, and whose submissions are all
      accepted (fresh or already recorded) submits every group with burns, in
      order, and returns the generator's value. */
  lemma ReaderEndReturns(w: Window, responses: seq<Response<TokenTransaction>>, k: nat, terminal: nat, outcomes: seq<SubmitOutcome>)
    requires k < |responses|
    requires forall i | 0 <= i < k ::
      Continues(EtherscanClient.DefaultPageSize, responses[i], RetriesAfter(responses[..i], 0))
    requires !Continues(EtherscanClient.DefaultPageSize, responses[k], RetriesAfter(responses[..k], 0))
    requires !ReadTokenTxPage(responses[k]).Failure?
    requires var t := Drive(EtherscanClient.DefaultPageSize, w, responses, 1, 0);
      && (forall j | 0 <= j < |t.pages| :: PrepareGroup(t.pages[j]).Ok?)
      && |outcomes| >= |SubmissionsOf(t.pages)|
      && (forall i | 0 <= i < |SubmissionsOf(t.pages)| :: !outcomes[i].OtherError?)
    ensures var t := Drive(EtherscanClient.DefaultPageSize, w, responses, 1, 0);
      Forward(t.pages, t.halt, terminal, outcomes) == Relayed(SubmissionsOf(t.pages), Returned(terminal))
  {
    var t := Drive(EtherscanClient.DefaultPageSize, w, responses, 1, 0);
    DriveStopsAt(EtherscanClient.DefaultPageSize, w, responses, 1, 0, k);
    DuplicatesAreSuccess(t.pages, t.halt, terminal, outcomes);
  }

  /** `Math.max(lastWrittenHeight, contractHeight) + 1`: reading starts
      strictly above both the watermark and the deployment height. */
  function StartBlock(lastWrittenHeight: nat, contractHeight: nat): (b: nat)
    ensures b > lastWrittenHeight && b > contractHeight
    ensures b == lastWrittenHeight + 1 || b == contractHeight + 1
  {
    if lastWrittenHeight >= contractHeight then lastWrittenHeight + 1 else contractHeight + 1
  }

  /** `Math.min(currentHeight, etherHeight)`: a pass never reports a height
      above the source height it read. */
  function PassHeight(currentHeight: nat, etherHeight: nat): (h: nat)
    ensures h <= currentHeight && h <= etherHeight
    ensures h == currentHeight || h == etherHeight
  {
    if currentHeight <= etherHeight then currentHeight else etherHeight
  }

  /** `Math.max(lastWrittenHeight, await phala.queryEndHeight())`: the
      watermark a pass starts from never falls below the destination's. */
  function Watermark(local: nat, destination: nat): (m: nat)
    ensures m >= local && m >= destination
    ensures m == local || m == destination
  {
    if local >= destination then local else destination
  }

  /** The reference behaviour of `forwardHistoryTransactions`: a failed
      height probe throws; otherwise the pass from just above the watermark
      and the deployment height, its returned value capped at the source
      height. */
  function HistoryPass(lastWrittenHeight: nat, contractHeight: nat, contract: string,
                       heightData: Value, hexToNumber: string -> nat,
                       responses: seq<Response<TokenTransaction>>, terminal: nat,
                       outcomes: seq<SubmitOutcome>): Relayed
  {
    match ReadHeight(heightData, hexToNumber)
    case Err(_) => Relayed([], Threw(HeightUnavailable(heightData)))
    case Ok(etherHeight) =>
      var t := Drive(EtherscanClient.DefaultPageSize,
                     PassWindow(StartBlock(lastWrittenHeight, contractHeight), etherHeight, contract), responses, 1, 0);
      var pass := Forward(t.pages, t.halt, terminal, outcomes);
      Relayed(pass.submissions, if pass.result.Returned? then Returned(PassHeight(pass.result.height, etherHeight)) else pass.result)
  }

  /** `forwardHistoryTransactions`: read the source height, run a pass from
      just above the watermark and the deployment height, and cap the
      pass's value at the source height. */
  method ForwardHistoryTransactions(lastWrittenHeight: nat, contractHeight: nat, contract: string,
                                    heightData: Value, hexToNumber: string -> nat,
                                    responses: seq<Response<TokenTransaction>>, terminal: nat,
                                    outcomes: seq<SubmitOutcome>)
    returns (r: Relayed)
    ensures r == HistoryPass(lastWrittenHeight, contractHeight, contract, heightData, hexToNumber, responses, terminal, outcomes)
    ensures ReadHeight(heightData, hexToNumber).Err? ==> r == Relayed([], Threw(HeightUnavailable(heightData)))
    ensures r.result.Returned? ==>
      ReadHeight(heightData, hexToNumber).Ok? &&
      r.result.height <= ReadHeight(heightData, hexToNumber).value &&
      r.result.height <= terminal
  {
    var startBlock := StartBlock(lastWrittenHeight, contractHeight);
    var etherHeight := ReadHeight(heightData, hexToNumber);
    if etherHeight.Err? {
      return Relayed([], Threw(HeightUnavailable(etherHeight.error)));
    }
    var pass := ForwardTransactions(startBlock, etherHeight.value, contract, responses, terminal, outcomes);
    ghost var t := Drive(EtherscanClient.DefaultPageSize, PassWindow(startBlock, etherHeight.value, contract), responses, 1, 0);
    ForwardReturnsTerminal(t.pages, t.halt, terminal, outcomes);
    if pass.result.Returned? {
      r := Relayed(pass.submissions, Returned(PassHeight(pass.result.height, etherHeight.value)));
    } else {
      r := pass;
    }
  }

  /** What `run` is given for one round of its loop: the destination's
      recorded height, the height probe's body, and the responses, terminal
      value and submit outcomes of the pass. */
  datatype Round = Round(
    endHeight: nat,
    heightData: Value,
    responses: seq<Response<TokenTransaction>>,
    terminal: nat,
    outcomes: seq<SubmitOutcome>)

  /** What a round that completed promises about the height it left behind. */
  predicate RoundCapped(round: Round, hexToNumber: string -> nat, height: nat) {
    && ReadHeight(round.heightData, hexToNumber).Ok?
    && height <= ReadHeight(round.heightData, hexToNumber).value
    && height <= round.terminal
  }

  /** The pass of one round of `run`, from the higher of the last height and
      the destination's recorded height: what `forwardHistoryTransactions`
      returns for that watermark. */
  function RoundPass(lastWrittenHeight: nat, contractHeight: nat, contract: string,
                     hexToNumber: string -> nat, round: Round): Relayed {
    HistoryPass(Watermark(lastWrittenHeight, round.endHeight), contractHeight, contract,
                round.heightData, hexToNumber, round.responses, round.terminal, round.outcomes)
  }

  /** `RoundPass` for one deployment, as the function `run`'s loop applies. */
  function RunPass(contractHeight: nat, contract: string, hexToNumber: string -> nat): (nat, Round) -> Relayed {
    (lastWrittenHeight: nat, round: Round) => RoundPass(lastWrittenHeight, contractHeight, contract, hexToNumber, round)
  }

  /** What `run` has done after some rounds: the heights it recorded, the
      submissions it made, and how it stopped. */
  datatype Session = Session(heights: seq<nat>, submissions: seq<Submission>, stop: Forwarded)

  /** The reference behaviour of `run`'s loop from `lastWrittenHeight` over
      the remaining rounds, `passOf` giving the pass of a round from a last
      height: a returned height is recorded and the next round starts from
      it; an exception or a waiting pass ends the session. */
  function Rounds(lastWrittenHeight: nat, passOf: (nat, Round) -> Relayed, rounds: seq<Round>): Session
    decreases |rounds|
  {
    if rounds == [] then Session([], [], Waiting)
    else
      var pass := passOf(lastWrittenHeight, rounds[0]);
      if pass.result.Returned? then
        var rest := Rounds(pass.result.height, passOf, rounds[1..]);
        Session([pass.result.height] + rest.heights, pass.submissions + rest.submissions, rest.stop)
      else Session([], pass.submissions, pass.result)
  }

  /** `heights` and `submissions` recorded before the rest of a session. */
  function After(heights: seq<nat>, submissions: seq<Submission>, rest: Session): Session {
    Session(heights + rest.heights, submissions + rest.submissions, rest.stop)
  }

  /** One round of a session, at position `i`. */
  lemma RoundsStep(lastWrittenHeight: nat, passOf: (nat, Round) -> Relayed, rounds: seq<Round>, i: nat)
    requires i < |rounds|
    ensures
      var pass := passOf(lastWrittenHeight, rounds[i]);
      var now := Rounds(lastWrittenHeight, passOf, rounds[i..]);
      if pass.result.Returned? then
        now == After([pass.result.height], pass.submissions, Rounds(pass.result.height, passOf, rounds[i + 1..]))
      else now == Session([], pass.submissions, pass.result)
  {
    assert rounds[i..][0] == rounds[i] && rounds[i..][1..] == rounds[i + 1..];
  }

  lemma AfterNothing(s: Session)
    ensures After([], [], s) == s
  {
    assert [] + s.heights == s.heights && [] + s.submissions == s.submissions;
  }

  lemma AfterStop(heights: seq<nat>, submissions: seq<Submission>, more: seq<Submission>, stop: Forwarded)
    ensures After(heights, submissions, Session([], more, stop)) == Session(heights, submissions + more, stop)
  {
    assert heights + [] == heights;
  }

  lemma AfterTwice(h1: seq<nat>, s1: seq<Submission>, h2: seq<nat>, s2: seq<Submission>, rest: Session)
    ensures After(h1, s1, After(h2, s2, rest)) == After(h1 + h2, s1 + s2, rest)
  {
    assert h1 + (h2 + rest.heights) == (h1 + h2) + rest.heights;
    assert s1 + (s2 + rest.submissions) == (s1 + s2) + rest.submissions;
  }

  /** Round `i` of a session is the pass from the height recorded by round
      `i - 1` (the starting height for the first round), and every recorded
      height is the value that pass returned. */
  lemma {:induction false} RoundsStartFromLastHeight(lastWrittenHeight: nat, passOf: (nat, Round) -> Relayed, rounds: seq<Round>)
    decreases |rounds|
    ensures |Rounds(lastWrittenHeight, passOf, rounds).heights| <= |rounds|
    ensures
      var hs := Rounds(lastWrittenHeight, passOf, rounds).heights;
      forall i | 0 <= i < |hs| :: passOf(if i == 0 then lastWrittenHeight else hs[i - 1], rounds[i]).result == Returned(hs[i])
  {
    if rounds != [] {
      var pass := passOf(lastWrittenHeight, rounds[0]);
      if pass.result.Returned? {
        RoundsStartFromLastHeight(pass.result.height, passOf, rounds[1..]);
        var rest := Rounds(pass.result.height, passOf, rounds[1..]).heights;
        var hs := Rounds(lastWrittenHeight, passOf, rounds).heights;
        assert hs == [pass.result.height] + rest;
        forall i | 1 <= i < |hs|
          ensures passOf(hs[i - 1], rounds[i]).result == Returned(hs[i])
        {
          assert rounds[i] == rounds[1..][i - 1];
          if i > 1 {
            assert hs[i - 1] == rest[i - 2];
          }
        }
      }
    }
  }

  /** The submissions of a session are those of its rounds' passes, in
      order: the session's submissions are the first pass's followed by the
      rest's, and a session that stops early stops with its last pass's
      submissions and result. */
  lemma {:induction false} RoundsSubmitInOrder(lastWrittenHeight: nat, passOf: (nat, Round) -> Relayed, rounds: seq<Round>)
    ensures rounds != [] ==>
      var pass := passOf(lastWrittenHeight, rounds[0]);
      var r := Rounds(lastWrittenHeight, passOf, rounds);
      && |pass.submissions| <= |r.submissions|
      && r.submissions[..|pass.submissions|] == pass.submissions
      && (!pass.result.Returned? ==> r == Session([], pass.submissions, pass.result))
  {
    if rounds != [] {
      var pass := passOf(lastWrittenHeight, rounds[0]);
      var r := Rounds(lastWrittenHeight, passOf, rounds);
      if pass.result.Returned? {
        var rest := Rounds(pass.result.height, passOf, rounds[1..]);
        assert r.submissions == pass.submissions + rest.submissions;
        assert r.submissions[..|pass.submissions|] == pass.submissions;
      }
    }
  }

  /** A history pass fails on an unreadable height, and a height it returns
      is capped by the source height and the generator's value. */
  lemma HistoryPassCapped(lastWrittenHeight: nat, contractHeight: nat, contract: string,
                          hexToNumber: string -> nat, round: Round)
    ensures var pass := RoundPass(lastWrittenHeight, contractHeight, contract, hexToNumber, round);
      && (pass.result.Returned? ==> RoundCapped(round, hexToNumber, pass.result.height))
      && (ReadHeight(round.heightData, hexToNumber).Err? ==> pass == Relayed([], Threw(HeightUnavailable(round.heightData))))
  {
    var etherHeight := ReadHeight(round.heightData, hexToNumber);
    if etherHeight.Ok? {
      var t := Drive(EtherscanClient.DefaultPageSize,
                     PassWindow(StartBlock(Watermark(lastWrittenHeight, round.endHeight), contractHeight), etherHeight.value, contract),
                     round.responses, 1, 0);
      ForwardReturnsTerminal(t.pages, t.halt, round.terminal, round.outcomes);
    }
  }

  /** A session of `run` records one capped height per completed round, and
      stops only on an exception or when it is waiting; a failed height
      probe in the next round is the exception that stopped it. */
  lemma {:induction false} RoundsEnd(lastWrittenHeight: nat, contractHeight: nat, contract: string,
                                     hexToNumber: string -> nat, rounds: seq<Round>)
    decreases |rounds|
    ensures var r := Rounds(lastWrittenHeight, RunPass(contractHeight, contract, hexToNumber), rounds);
      && |r.heights| <= |rounds|
      && (forall i | 0 <= i < |r.heights| :: RoundCapped(rounds[i], hexToNumber, r.heights[i]))
      && (r.stop.Waiting? || r.stop.Threw?)
      && (r.stop.Threw? ==> |r.heights| < |rounds|)
      && (|r.heights| < |rounds| && ReadHeight(rounds[|r.heights|].heightData, hexToNumber).Err? ==>
            r.stop == Threw(HeightUnavailable(rounds[|r.heights|].heightData)))
  {
    if rounds != [] {
      var passOf := RunPass(contractHeight, contract, hexToNumber);
      var pass := passOf(lastWrittenHeight, rounds[0]);
      HistoryPassCapped(lastWrittenHeight, contractHeight, contract, hexToNumber, rounds[0]);
      if pass.result.Returned? {
        RoundsEnd(pass.result.height, contractHeight, contract, hexToNumber, rounds[1..]);
        var rest := Rounds(pass.result.height, passOf, rounds[1..]);
        var r := Rounds(lastWrittenHeight, passOf, rounds);
        assert r.heights == [pass.result.height] + rest.heights;
        forall i | 1 <= i < |r.heights| ensures RoundCapped(rounds[i], hexToNumber, r.heights[i]) {
          assert rounds[i] == rounds[1..][i - 1] && r.heights[i] == rest.heights[i - 1];
        }
        assert |r.heights| < |rounds| ==> rounds[|r.heights|] == rounds[1..][|rest.heights|];
      }
    }
  }

  /** `run`'s loop from `lastWrittenHeight` over as many rounds as are given,
      each round's pass given by `passOf`: it does what `Rounds` describes. */
  method RunRounds(lastWrittenHeight: nat, passOf: (nat, Round) -> Relayed, rounds: seq<Round>)
    returns (heights: seq<nat>, submissions: seq<Submission>, stop: Forwarded)
    ensures Session(heights, submissions, stop) == Rounds(lastWrittenHeight, passOf, rounds)
  {
    var last := lastWrittenHeight;
    heights, submissions := [], [];
    ghost var whole := Rounds(lastWrittenHeight, passOf, rounds);
    assert rounds[0..] == rounds;
    AfterNothing(whole);
    while |heights| < |rounds|
      invariant |heights| <= |rounds|
      invariant whole == After(heights, submissions, Rounds(last, passOf, rounds[|heights|..]))
      decreases |rounds| - |heights|
    {
      RoundsStep(last, passOf, rounds, |heights|);
      var pass := passOf(last, rounds[|heights|]);
      if !pass.result.Returned? {
        AfterStop(heights, submissions, pass.submissions, pass.result);
        return heights, submissions + pass.submissions, pass.result;
      }
      AfterTwice(heights, submissions, [pass.result.height], pass.submissions,
                 Rounds(pass.result.height, passOf, rounds[|heights| + 1..]));
      submissions := submissions + pass.submissions;
      last := pass.result.height;
      heights := heights + [last];
    }
    assert rounds[|heights|..] == [];
    assert heights + [] == heights && submissions + [] == submissions;
    stop := Waiting;
  }

  /** `run`: its loop from height 0 over as many rounds as are given, each
      round the pass `forwardHistoryTransactions` makes from the watermark
      `max(lastWrittenHeight, queryEndHeight())`. `heights` are the values
      `lastWrittenHeight` takes; `stop` is the exception, or `Waiting` when
      the rounds ran out or a pass is waiting. */
  method Run(contractHeight: nat, contract: string, hexToNumber: string -> nat, rounds: seq<Round>)
    returns (heights: seq<nat>, submissions: seq<Submission>, stop: Forwarded)
    ensures Session(heights, submissions, stop) == Rounds(0, RunPass(contractHeight, contract, hexToNumber), rounds)
    ensures |heights| <= |rounds|
    ensures forall i | 0 <= i < |heights| :: RoundCapped(rounds[i], hexToNumber, heights[i])
    ensures stop.Waiting? || stop.Threw?
    ensures stop.Threw? ==> |heights| < |rounds|
    ensures |heights| < |rounds| && ReadHeight(rounds[|heights|].heightData, hexToNumber).Err? ==>
      stop == Threw(HeightUnavailable(rounds[|heights|].heightData))
  {
    heights, submissions, stop := RunRounds(0, RunPass(contractHeight, contract, hexToNumber), rounds);
    RoundsEnd(0, contractHeight, contract, hexToNumber, rounds);
  }

  /** A JavaScript number as far as the height arithmetic needs one: a
      finite integer or NaN. */
  datatype JsNumber = NaN | Finite(n: int)

  /** `Math.min(a, b)`: NaN as soon as either argument is NaN. */
  function JsMin(a: JsNumber, b: JsNumber): (r: JsNumber)
    ensures r.NaN? <==> a.NaN? || b.NaN?
    ensures r.Finite? ==> r.n <= a.n && r.n <= b.n && (r.n == a.n || r.n == b.n)
  {
    if a.NaN? || b.NaN? then NaN else if a.n <= b.n then a else b
  }

  /** `Math.max(a, b)`: NaN as soon as either argument is NaN. */
  function JsMax(a: JsNumber, b: JsNumber): (r: JsNumber)
    ensures r.NaN? <==> a.NaN? || b.NaN?
    ensures r.Finite? ==> r.n >= a.n && r.n >= b.n && (r.n == a.n || r.n == b.n)
  {
    if a.NaN? || b.NaN? then NaN else if a.n >= b.n then a else b
  }

  /** `x + 1`, which keeps NaN. */
  function JsSucc(a: JsNumber): (r: JsNumber)
    ensures r.NaN? <==> a.NaN?
    ensures r.Finite? ==> r.n == a.n + 1
  {
    if a.NaN? then NaN else Finite(a.n + 1)
  }

  /** The number `Math.min` sees for the generator's return value:
      `undefined` converts to NaN. */
  function ReturnedNumber(returned: Value): (r: JsNumber)
    requires returned.Undefined? || returned.Num?
    ensures r.Finite? <==> returned.Num?
    ensures r.Finite? ==> r.n == returned.n
  {
    if returned.Num? then Finite(returned.n) else NaN
  }

  /** The height `forwardHistoryTransactions` reports, as written: the
      generator's return value, whatever it is, capped at the source height. */
  function PassHeightAsWritten(returned: Value, etherHeight: nat): (h: JsNumber)
    requires returned.Undefined? || returned.Num?
    ensures h.NaN? <==> returned.Undefined?
    ensures h.Finite? ==> h.n <= etherHeight
  {
    JsMin(ReturnedNumber(returned), Finite(etherHeight))
  }

  /** The start block of the next pass of `run`, as written, from the height
      the previous pass reported. */
  function NextStartBlockAsWritten(lastWrittenHeight: JsNumber, endHeight: nat, contractHeight: nat): (b: JsNumber)
    ensures b.NaN? <==> lastWrittenHeight.NaN?
    ensures b.Finite? ==> b.n > lastWrittenHeight.n && b.n > endHeight && b.n > contractHeight
  {
    JsSucc(JsMax(JsMax(lastWrittenHeight, Finite(endHeight)), Finite(contractHeight)))
  }

  /** The generator returns nothing, so a pass that runs to completion
      reports NaN, and every later pass of `run` asks for transactions from
      block NaN: the watermark is lost for good. */
  lemma VoidReturnPoisonsWatermark(etherHeight: nat, endHeights: seq<nat>, contractHeight: nat)
    ensures PassHeightAsWritten(Undefined, etherHeight) == NaN
    ensures forall e | e in endHeights ::
      NextStartBlockAsWritten(PassHeightAsWritten(Undefined, etherHeight), e, contractHeight) == NaN
  {
  }

  /** With a numeric return value, as the corrected model has it, the next
      pass starts above the reported height, the destination's height and
      the deployment height. */
  lemma NumericReturnKeepsWatermark(terminal: nat, etherHeight: nat, endHeight: nat, contractHeight: nat)
    ensures PassHeightAsWritten(Num(terminal), etherHeight) == Finite(PassHeight(terminal, etherHeight))
    ensures NextStartBlockAsWritten(Finite(PassHeight(terminal, etherHeight)), endHeight, contractHeight)
         == Finite(StartBlock(Watermark(PassHeight(terminal, etherHeight), endHeight), contractHeight))
  {
  }
}
