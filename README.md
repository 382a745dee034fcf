# erc20-relayer, modelled in Dafny

The erc20-relayer watches an ERC-20 token contract on Ethereum through the
Etherscan HTTP API. It picks out transfers to the burn sink
`0x000000000000000000000000000000000000dead` and records each block's burns
as claims on the Phala destination ledger. This project models its core:

- **Etherscan client**, in two copies (`src/etherscan/index.ts` and
  `src/ethereum/etherscan.ts`):
  - the height probe;
  - the classification of one `tokentx` response (HTTP error, unreadable
    body, "no transactions", page, API error);
  - the async generator that walks pages with a retry counter.

  The two copies differ only in page size (1 and 500). Module `EtherscanApi`
  takes the page size as a parameter. Modules `EtherscanClient` and
  `EthereumEtherscan` fix it and prove what each size implies.
- **Wire schemas** (`src/etherscan/io.ts`, module `EtherscanIo`) and the
  **destination value codecs** (`src/phala/data.ts`, module `PhalaData`). Both
  are io-ts codecs over a model of JavaScript values (module `Codec`) and of
  digit strings (module `Lexical`).
- **Relay** (`src/relay.ts`, module `Relay`):
  - `forwardTransactions`: filter the burns of each yielded group, build
    claims, submit, and treat "already recorded" as success;
  - `forwardHistoryTransactions`: the start block and the height cap;
  - `run`'s watermark loop.
- **Survey script** (`scripts/test-etherscan.ts`, module `TestEtherscan`):
  - checks every group (non-empty, one block, one contract);
  - counts raw transfers and burns per window;
  - chains windows until one window is empty.
- **Submission outcomes** (module `PhalaSubmit`): how a failed extrinsic is
  classified, from `src/phala/index.ts`. Only that is modelled.

Everything outside the program is an oracle given as a parameter:

| outside the program | model |
|---|---|
| Etherscan API | the sequence of responses, in request order |
| destination ledger | the sequence of submission outcomes |
| `hexToNumber` | a function parameter |
| generator's return value | a number parameter `terminal` |

A run that uses up its script is `Pending` or `Waiting`: the generator or the
relay is suspended on the next request. Imperative code is modelled as
methods with loops:

| method | proved equal to |
|---|---|
| `EtherscanApi.ReadTokenTx` | the recursive function `Drive` |
| `Relay.ForwardTransactions` | `Forward` |
| `TestEtherscan.CountGroups` | `Tally` |

The lemmas are about those functions.

What the code settles where its names, comments and types leave room:

- `readTokenTx` is documented as yielding "transactions splitted into pages"
  (`src/etherscan/index.ts:127-132`). It yields every page exactly as
  Etherscan returns it, and the relay's client asks for pages of one
  transfer. Pages are not regrouped by block, and no 10,000-entry ceiling is
  enforced.
- `defaultRetries` is 5, but the test `retries > defaultRetries` rethrows
  only on the seventh consecutive failure of a page
  (`EtherscanApi.SeventhFailureRaises`). The counter is reset after every
  page.
- The start block is `Math.max(lastWrittenHeight, contractHeight) + 1`
  (`src/relay.ts:67`), so a pass starts strictly above the deployment
  height. `run`'s loop has no delay between passes.
- The client's own `Transaction` interface (`src/etherscan/index.ts:29-34`)
  declares four fields. The relay reads `to` and the survey reads
  `contractAddress`. Transfers are therefore modelled by the six-field record
  of `src/etherscan/io.ts`.

## Model

| member | source | states |
|---|---|---|
| Codec.Coalesce | src/etherscan/index.ts:116 | `v ?? fallback` is the fallback exactly when `v` is null or undefined, and `v` otherwise |
| Codec.ValidateString | src/phala/data.ts:19 | io-ts `string` succeeds exactly on strings and returns the string itself; anything else gives one "expected string" issue |
| Codec.ValidateLiteral | src/etherscan/io.ts:33 | `literal(x)` succeeds exactly on the string `x` |
| Lexical.DecimalString | src/etherscan/io.ts:9 | the canonical numeral of a number matches `/^\d+$/` and has no leading zero |
| Lexical.DecimalRoundTrip | src/etherscan/io.ts:18 | the value of the canonical numeral of `n` is `n` |
| Lexical.LeadingZerosIgnored | src/phala/data.ts:54 | leading zeros keep a numeral a digit string and do not change its value |
| Lexical.BytesOfHexValue | src/phala/data.ts:24 | turning hex digit pairs into bytes keeps the big-endian number they denote |
| PhalaData.ValidateEthereumAddress | src/phala/data.ts:13-23 | succeeds exactly on strings matching `/^0x[A-Fa-f0-9]{40}$/` and returns them unchanged; a non-string gives the string issue, a mismatch gives "Malformed Ethereum address" |
| PhalaData.ValidateEthereumTxHash | src/phala/data.ts:29-39 | the same with 64 digits and "Malformed Ethereum Tx hash" |
| PhalaData.ValidateBalance | src/phala/data.ts:45-53 | the same with `/^\d+$/` and "Non-integer balance" |
| PhalaData.GuardsAcceptMalformedStrings | src/phala/data.ts:17 | the `is` guards are plain `string.is` and accept every string, while each validator fails exactly on the strings of the wrong shape; `"0x"` fails all three |
| PhalaData.EncodeEthereumAddress | src/phala/data.ts:24 | encoding is defined exactly on valid addresses and gives the 20 bytes whose big-endian value is the hex number after `0x` |
| PhalaData.EncodeEthereumTxHash | src/phala/data.ts:40 | encoding is defined exactly on valid hashes and gives the 32 bytes whose big-endian value is the hex number after `0x` |
| PhalaData.BalanceRoundTrip | src/phala/data.ts:47-55 | the canonical numeral of every balance validates to itself and encodes back to the balance |
| PhalaData.BalanceLeadingZeros | src/phala/data.ts:52-54 | zero-padded balances validate and encode to the same number |
| EtherscanIo.ValidatePositiveInteger | src/etherscan/io.ts:4-19 | succeeds exactly on digit strings ("0" included) and keeps the string; otherwise the string issue or `"s" is not a positive integer` |
| EtherscanIo.PositiveIntegerRoundTrip | src/etherscan/io.ts:14-19 | a number's numeral decodes to itself and `parseInt` encodes it back to the number |
| EtherscanIo.DecodeTokenTransaction | src/etherscan/io.ts:21-28 | a record decodes exactly when it is an object whose six properties validate; the fields are those properties; a failure carries at least one issue |
| EtherscanIo.TokenTransactionRoundTrip | src/etherscan/io.ts:21-30 | every transfer record, sent as its JSON object, decodes back to itself |
| EtherscanIo.DecodeEach | src/etherscan/io.ts:34 | an array decodes exactly when every element does, element by element in order |
| EtherscanIo.DecodeTransactionArray | src/etherscan/io.ts:34 | `array(tokenTransaction)` accepts exactly arrays whose elements all decode |
| EtherscanIo.DecodeQueryResponse | src/etherscan/io.ts:32-36 | a response decodes exactly when status is '1', message is 'OK' and every result record decodes; the result keeps the records in order |
| EtherscanIo.OneBadRecordRejectsResponse | src/etherscan/io.ts:34 | one undecodable record rejects the whole response |
| EtherscanIo.NullOrNoDataRejected | src/etherscan/io.ts:33-35 | status '0' or a null result is rejected, never decoded as an empty page |
| EtherscanIo.ResponseRoundTrip | src/etherscan/io.ts:32-36 | every list of records, sent as a successful response, decodes back to itself |
| EtherscanApi.ReadTokenTxPage | src/etherscan/index.ts:90-124 | non-200 gives an HTTP error; status '0' gives "no transactions" with the message or 'No transactions found'; status '1' with a non-empty array gives that page, otherwise "no transactions" with 'No transactions returned'; any other status gives an error with the message or 'Unknown error'; pages are never empty |
| EtherscanApi.ReadHeight | src/etherscan/index.ts:61-71 | the height exists exactly when `result` is a string, and is `hexToNumber` of it; otherwise the body is reported |
| EtherscanApi.ReadTokenTx | src/etherscan/index.ts:133-164 | the generator's pages, requests and ending are those of `Drive` from page 1 with no retries used |
| EtherscanApi.RetriesAfterAppend | src/etherscan/index.ts:146-161 | the retry counter counts the current run of failures: a failure adds one and a page resets it |
| EtherscanApi.DriveConsumes | src/etherscan/index.ts:136-163 | a run makes at most one request per response; it waits only after reading every response, and stops only after a request |
| EtherscanApi.DriveYieldsEveryPage | src/etherscan/index.ts:138-139 | the yielded pages are exactly the pages among the responses read, in order, and none is empty |
| EtherscanApi.DriveQueriesAsk | src/etherscan/index.ts:134-138 | every request asks for the window with `offset` equal to the page size, and the first one asks for the starting page |
| EtherscanApi.DriveQueries | src/etherscan/index.ts:146-161 | the next request's page is one higher after a page and the same after a failure, so a failed page is asked for again |
| EtherscanApi.DriveContinues | src/etherscan/index.ts:141-161 | every response before the last request was a full page, or a failure that the retry budget still covered |
| EtherscanApi.DriveHalts | src/etherscan/index.ts:141-158 | a run ends normally only after "no transactions" or a short page, and throws only the error of a failure that arrived once the counter already exceeded 5 |
| EtherscanApi.RetriesAfterFirst | src/etherscan/index.ts:146-161 | the counter after a prefix of responses is the counter the rest of the prefix yields from the value the first response leaves |
| EtherscanApi.DriveStopsAt | src/etherscan/index.ts:141-161 | conversely, when response `k` is the first one the generator does not go past, it makes exactly `k + 1` requests and returns after "no transactions" or a short page, or throws the error of a failure beyond the budget |
| EtherscanApi.DriveWaits | src/etherscan/index.ts:141-161 | when the generator goes past every response given, it makes one request per response and is still waiting |
| EtherscanApi.DriveAfterFailures | src/etherscan/index.ts:155-161 | `j` covered failures re-request the same page `j` times and pass on the counter raised by `j` |
| EtherscanApi.SeventhFailureRaises | src/etherscan/index.ts:155-158 | seven consecutive failures of the first page are rethrown after seven requests for page 1, with no page yielded |
| EtherscanApi.RetriedFailuresRecover | src/etherscan/index.ts:155-161 | after up to six failures, the page that arrives is yielded first, after `k + 1` requests for page 1 |
| EtherscanClient.NoShortPageExit | src/etherscan/index.ts:138-144 | with pages of one, a run ends normally only on "no transactions" |
| EthereumEtherscan.ShortPageEndsWalk | src/ethereum/etherscan.ts:117-126 | with pages of 500, `k` full pages and then a short one are all yielded on consecutive page numbers, and the walk returns without another request |
| PhalaSubmit.ClassifyModuleError | src/phala/index.ts:58-67 | a module error is a duplicate exactly for `phaClaim.TxHashAlreadyExist`; any other one is an error carrying its section and name |
| Relay.BurnsAreExactlyTheBurns | src/relay.ts:38 | the filter keeps every transfer to the dead address in the group, and nothing else |
| Relay.BurnsKeepOrder | src/relay.ts:37-38 | the filter keeps the group's order: it distributes over concatenation |
| Relay.BuildClaimEncodes | src/relay.ts:39-44 | a claim exists exactly when hash and sender are well formed; it carries the burn, `value / 100` rounded down, and the 20 and 32 bytes they denote |
| Relay.BuildClaimsMapsInOrder | src/relay.ts:39-44 | when every burn encodes, claim `i` is the claim of burn `i`, one per burn |
| Relay.BuildClaimsFailsAtFirst | src/relay.ts:39-44 | when encoding throws, it names the first burn that cannot be encoded |
| Relay.PrepareGroup | src/relay.ts:32-45 | an empty group is the "empty block" assertion; a group without burns is skipped; otherwise a submission at the first transfer's block number with the claims of all burns, or the first encoding failure |
| Relay.ForwardTransactions | src/relay.ts:17-64 | the pass over the generator's output equals `Forward` of the pages and ending of `Drive` for the window from `startBlock` to `ethHeight` |
| Relay.ForwardSubmitsInOrder | src/relay.ts:25-63 | the submissions of a pass are those its groups call for, in order, up to some group: none is skipped or repeated |
| Relay.DuplicatesAreSuccess | src/relay.ts:52-60 | if no submission fails except as a duplicate, every submission is made and the pass ends as the generator did |
| Relay.ForwardReturnsTerminal | src/relay.ts:28-30 | a pass returns only when the generator finished, and then returns the generator's value |
| Relay.ForwardThrowsOnlyWithCause | src/relay.ts:32-34 | "empty block" is thrown only when a group was empty, and a reader error only when the generator threw that error |
| Relay.ForwardRethrowsSubmitError | src/relay.ts:52-60 | a non-duplicate submission error ends the pass at once, as the answer to its last submission; every earlier submission was stored or a duplicate |
| Relay.SubmissionsCarryBurns | src/relay.ts:35-53 | each submission has claims and is the submission of some non-empty group, at that group's block number and with the claims of its burns |
| Relay.ReaderNeverYieldsEmptyBlock | src/relay.ts:32-34 | over the reader's real output, the "empty block" assertion never fires |
| Relay.StartBlock | src/relay.ts:67 | the start block is one above the higher of the watermark and the deployment height |
| Relay.PassHeight | src/relay.ts:71 | the reported height is the lower of the pass's value and the source height |
| Relay.Watermark | src/relay.ts:86 | the watermark is the higher of the local and the destination's height, so it never falls below either |
| Relay.ForwardHistoryTransactions | src/relay.ts:66-72 | the pass equals `HistoryPass`: a failed height probe throws; otherwise it is `Forward` over `Drive` from `StartBlock` to the source height, its returned height capped by `PassHeight`; a returned height is at most both the source height and the generator's value |
| Relay.ReaderEndReturns | src/relay.ts:25-64 | a pass whose reader reaches "no transactions" or a short page, with every group preparable and every submission stored or a duplicate, makes every submission its groups call for and returns the generator's value |
| Relay.RoundsStep | src/relay.ts:83-89 | one round of the loop records the returned height and carries on from it, or ends the session with that round's submissions and result |
| Relay.RoundsStartFromLastHeight | src/relay.ts:85-88 | round `i` is the pass from the height recorded by round `i - 1`, or from the starting height for the first round, and each recorded height is the one that pass returned |
| Relay.RoundsSubmitInOrder | src/relay.ts:85-88 | a session's submissions begin with the first round's; a round that does not return ends the session with its own submissions and result |
| Relay.HistoryPassCapped | src/relay.ts:66-72 | a pass from the watermark fails on an unreadable height, and a height it returns is at most the round's source height and generator value |
| Relay.RoundsEnd | src/relay.ts:83-89 | a session records one capped height per completed round and stops only on an exception or when waiting; a failed height probe in the next round is the exception that stops it |
| Relay.RunRounds | src/relay.ts:83-89 | the loop's recorded heights, submissions and ending are exactly those of `Rounds` |
| Relay.Run | src/relay.ts:83-89 | `run` from height 0 is `Rounds` where each round is the pass `forwardHistoryTransactions` makes from `max(last height, destination height)`; so every recorded height is capped by its round's source height and value, and the loop stops only on an exception or when waiting, a failed height probe ending it |
| Relay.JsMin | src/relay.ts:71 | `Math.min` is NaN when an argument is NaN, and otherwise the lower argument |
| Relay.JsMax | src/relay.ts:67 | `Math.max` is NaN when an argument is NaN, and otherwise the higher argument |
| Relay.PassHeightAsWritten | src/relay.ts:70-71 | the height reported as written is NaN exactly when the generator returns `undefined` |
| Relay.NextStartBlockAsWritten | src/relay.ts:67-86 | the next start block as written is NaN exactly when the previous height is, and otherwise lies above all three inputs |
| Relay.VoidReturnPoisonsWatermark | src/relay.ts:29-71 | the generator returns `undefined`, so the reported height is NaN and so is every later start block |
| Relay.NumericReturnKeepsWatermark | src/relay.ts:67-71 | with a numeric return value, the as-written arithmetic matches the corrected `PassHeight`, `Watermark` and `StartBlock` |
| TestEtherscan.FaultFromFindsFirst | scripts/test-etherscan.ts:67-77 | the `forEach` checks fail exactly when a transfer has another block number or another contract; the failure names the first such transfer, checking the block number before the contract |
| TestEtherscan.GroupFaultIff | scripts/test-etherscan.ts:62-77 | a group passes exactly when it is non-empty, of one block and of the expected contract; "empty block" fires exactly for the empty group |
| TestEtherscan.CheckGroup | scripts/test-etherscan.ts:62-77 | the loop of checks returns the first failed assertion, `GroupFault` |
| TestEtherscan.BurnTotalAtMostRaw | scripts/test-etherscan.ts:60-86 | the burns counted never exceed the raw transfers counted |
| TestEtherscan.TallyCounts | scripts/test-etherscan.ts:45-87 | a window is counted exactly when the generator finished and every group passed; its counts are then the total raw and burn transfers, and its last block is the generator's value |
| TestEtherscan.WindowReachesEnd | scripts/test-etherscan.ts:27-88 | a window whose reader reaches "no transactions" or a short page, with every group consistent, is counted with the total raw and burn transfers and the generator's value as its last block |
| TestEtherscan.TallyStopsAtFirstFault | scripts/test-etherscan.ts:62-77 | a failed assertion is that of the first failing group, and all earlier groups were consistent |
| TestEtherscan.ChainHeight | scripts/test-etherscan.ts:32-38 | the window's end is the probed height, or 0 when probing failed |
| TestEtherscan.ReadTransactions | scripts/test-etherscan.ts:27-88 | the window's outcome is `Tally` over the reader run from `startHeight` to the probed height; a counted window has no more burns than raw transfers, and its last block is the generator's value |
| TestEtherscan.CountGroups | scripts/test-etherscan.ts:45-87 | the loop over the groups computes `Tally` |
| TestEtherscan.TallyStep | scripts/test-etherscan.ts:59-86 | one group either fails its first assertion or adds its raw and burn counts to the rest of the window |
| TestEtherscan.WindowNeverEmpty | scripts/test-etherscan.ts:62-65 | over the reader's real output, the "empty block" assertion never fires |
| TestEtherscan.SumsAppend | scripts/test-etherscan.ts:97-98 | the session totals grow by exactly the counts of each counted window |
| TestEtherscan.Run | scripts/test-etherscan.ts:90-102 | the first window starts at the deployment height; each window is its script read from its start; each later window starts one block above the previous window's last block; the session goes on only after windows with transfers; the totals are the sums of the window counts, with burns at most raw |
| TestEtherscan.FinishWindowAsWritten | scripts/test-etherscan.ts:48-56 | ending a window as written throws a TypeError exactly when the return value is null or undefined |
| TestEtherscan.VoidReturnAbortsWindow | scripts/test-etherscan.ts:49 | the generator returns `undefined`, so every window that reaches its end throws instead of returning its totals |

## Left out

- HTTP transport: URL and query-string construction, fetch, proxy agents,
  `statusText` and the JSON parse itself. A response is given as its status
  and the three properties the client reads, or as unreadable.
- `hexToNumber` is a foreign conversion, so it is a function parameter.
- The generator's return value is a parameter `terminal` in the corrected
  model. It returns nothing; the as-written members under "## Findings"
  cover that.
- Interleaving: the model runs the reader to the end of its script and then
  replays the relay over the pages. The source pulls one page, then submits.
  What is submitted, and in what order, is the same. Requests the source
  would not yet have made after a stop are not modelled.
- The endless loops of `run` in `src/relay.ts` and in
  `scripts/test-etherscan.ts` are modelled over a finite list of rounds or
  windows.
- Logging, the environment checks of `scripts/test-etherscan.ts:10-25` and
  the final `catch` at line 107 are not modelled. Neither is `src/config.ts`,
  nor the wiring in `scripts/relay.ts`.
- The Polkadot client of `src/phala/index.ts`: connection, signing and the
  event subscription are not modelled; only the failure classification is.
  Submission outcomes are given as a sequence.
- Relay.Run: its loop (`Relay.RunRounds`) evaluates each round with
  `RoundPass`, the function `Relay.ForwardHistoryTransactions` is proved to
  compute, instead of calling that method. This keeps the loop's proof small;
  what each round does is the same.
- EtherscanApi.ReadTokenTxPage / Relay.ForwardTransactions: the client
  returns `data.result` without decoding it (the TODO at
  `src/etherscan/index.ts:97`), but the model types each element as a decoded
  six-field transfer. These behaviours of undecoded elements are therefore
  not modelled:
  - a non-digit `blockNumber` gives a NaN height through `parseInt`
    (`src/relay.ts:35`);
  - a `null` element throws a TypeError in the burn filter
    (`src/relay.ts:38`);
  - a missing `to` silently makes a transfer a non-burn;
  - `BN` parses garbage from a non-digit `value` (`src/relay.ts:42`).
- PhalaData.EncodeBalance: `new BN` on a digit string is its decimal value.
  There is no separate contract; `PhalaData.BalanceRoundTrip` and
  `PhalaData.BalanceLeadingZeros` state its behaviour.
- `hexToU8a` with a bit length is modelled only on strings that passed
  validation (exactly `2 + bits/4` characters). Its padding and truncation of
  other strings are left out; encoding anything else is a failure (`None`).
- `parseInt` and `BN` precision: numbers are unbounded integers, so
  `parseInt` of numerals above 2^53 is exact here.
- `positiveInteger.encode` and the encoding side of `tokenTransaction` are
  modelled only as the numeric value of a digit string. The source never
  encodes transfers.
- io-ts context paths, and the `message` texts of `Expected` issues, are not
  modelled.
- JavaScript values are modelled without fractional numbers. No schema
  accepts one.
- `Error` messages of the Etherscan client (`HTTP Error …`, the JSON-encoded
  body) are modelled by the data they carry, not as formatted strings.
- Numeric page, offset and block parameters are naturals, with no
  conversion through `toString`.

## Findings

| source | as written | input that shows it | evidently intended | confidence | as-written member | corrected member |
|---|---|---|---|---|---|---|
| src/relay.ts:29-71 | `forwardTransactions` returns the generator's return value. `readTokenTx` is `AsyncGenerator<…, void, void>` and returns `undefined`. `Math.min(undefined, etherHeight)` is NaN, and `run` then starts every later pass from block NaN | any pass whose reader reaches "no transactions", e.g. one response with status '0' | the pass reports a block height, capped at the source height, and the next pass starts above it | not executed | Relay.VoidReturnPoisonsWatermark | Relay.ForwardHistoryTransactions |
| scripts/test-etherscan.ts:48-56 | `result.value.toString()` on the generator's `undefined` return value throws a TypeError before the window's totals are returned | the first window whose reader reaches "no transactions" | the window returns its totals and the last block read, and the session moves on to the next window | not executed | TestEtherscan.VoidReturnAbortsWindow | TestEtherscan.ReadTransactions |
