/** What the two copies of the Etherscan client (`src/etherscan/index.ts` and
    `src/ethereum/etherscan.ts`) have in common: the height probe, the
    classification of one transfer-query response, and the generator that
    walks the pages with a retry budget. The copies differ only in the page
    size, which is a parameter here (see modules EtherscanClient and
    EthereumEtherscan). The network is an oracle: the successive responses the
    remote API gives, in the order the requests are made. */
module EtherscanApi {
  import opened Codec

  const DefaultRetries := 5

  /** The `result` property as far as the client inspects it. */
  datatype ResultField<T> = Items(items: seq<T>) | NotArray(other: Value)

  /** A response body: not JSON at all, or the `status`, `message` and `result`
      properties of the parsed value (all `Undefined` when it is not an object). */
  datatype Body<T> =
    | NotJson
    | Json(status: Value, message: Value, result: ResultField<T>)

  datatype Response<T> = Response(httpStatus: int, body: Body<T>)

  /** Why a request failed with an ordinary `Error`. */
  datatype FailureReason =
    | HttpError(httpStatus: int)
    | UnreadableBody
    | ApiError(message: Value)

  /** The three ways `readTokenTxPage` can end: a page, `NoTransactionError`, or another error. */
  datatype PageResult<T> =
    | Page(txs: seq<T>)
    | NoTransactions(message: Value)
    | Failure(reason: FailureReason)

  /** `readTokenTxPage` after the request: classify one response. */
  function ReadTokenTxPage<T>(resp: Response<T>): (r: PageResult<T>)
    ensures resp.httpStatus != 200 ==> r == Failure(HttpError(resp.httpStatus))
    ensures resp.httpStatus == 200 && resp.body.NotJson? ==> r == Failure(UnreadableBody)
    ensures resp.httpStatus == 200 && resp.body.Json? && resp.body.status == Str("0") ==>
      r == NoTransactions(Coalesce(resp.body.message, "No transactions found"))
    ensures resp.httpStatus == 200 && resp.body.Json? && resp.body.status == Str("1") ==>
      if resp.body.result.Items? && |resp.body.result.items| > 0
      then r == Page(resp.body.result.items)
      else r == NoTransactions(Coalesce(resp.body.message, "No transactions returned"))
    ensures resp.httpStatus == 200 && resp.body.Json? && resp.body.status != Str("0") && resp.body.status != Str("1") ==>
      r == Failure(ApiError(Coalesce(resp.body.message, "Unknown error")))
    ensures r.Page? ==> |r.txs| > 0
  {
    if resp.httpStatus != 200 then Failure(HttpError(resp.httpStatus))
    else match resp.body
      case NotJson => Failure(UnreadableBody)
      case Json(status, message, result) =>
        if status == Str("0") then NoTransactions(Coalesce(message, "No transactions found"))
        else if status == Str("1") then
          if result.NotArray? || |result.items| == 0 then NoTransactions(Coalesce(message, "No transactions returned"))
          else Page(result.items)
        else Failure(ApiError(Coalesce(message, "Unknown error")))
  }

  /** `readHeight` after the request: the `result` property must be a string;
      its conversion (`hexToNumber`) is a foreign call, passed in. */
  function ReadHeight(data: Value, hexToNumber: string -> nat): (r: Result<nat, Value>)
    ensures r.Ok? <==> Get(data, "result").Str?
    ensures r.Ok? ==> r.value == hexToNumber(Get(data, "result").s)
    ensures r.Err? ==> r.error == data
  {
    var result := Get(data, "result");
    if result.Str? then Ok(hexToNumber(result.s)) else Err(data)
  }

  /** The block range and contract of one `readTokenTx` call. */
  datatype Window = Window(endBlock: nat, startBlock: nat, contract: string)

  /** The parameters of one `tokentx` request. */
  datatype Query = Query(page: nat, offset: nat, window: Window)

  /** How the generator stopped: it returned, it threw the error of a page it
      gave up on, or it is still waiting for the next response. */
  datatype Halt = Finished | Raised(reason: FailureReason) | Pending

  /** What a run of the generator shows: the pages it yielded, the requests it
      made, and how it stopped. */
  datatype Trace<T> = Trace(pages: seq<seq<T>>, queries: seq<Query>, halt: Halt)

  function Prefixed<T>(pages: seq<seq<T>>, queries: seq<Query>, t: Trace<T>): Trace<T> {
    Trace(pages + t.pages, queries + t.queries, t.halt)
  }

  /** The generator's behaviour from cursor `page` and counter `retries` on
      the remaining responses: the reference the loop is proved against. */
  function Drive<T>(pageSize: nat, w: Window, responses: seq<Response<T>>, page: nat, retries: nat): Trace<T>
    decreases |responses|
  {
    if responses == [] then Trace([], [], Pending)
    else
      var q := Query(page, pageSize, w);
      match ReadTokenTxPage(responses[0])
      case Page(txs) =>
        if |txs| < pageSize then Trace([txs], [q], Finished)
        else Prefixed([txs], [q], Drive(pageSize, w, responses[1..], page + 1, 0))
      case NoTransactions(_) => Trace([], [q], Finished)
      case Failure(reason) =>
        if retries > DefaultRetries then Trace([], [q], Raised(reason))
        else Prefixed([], [q], Drive(pageSize, w, responses[1..], page, retries + 1))
  }

  lemma PrefixedTwice<T>(p1: seq<seq<T>>, q1: seq<Query>, p2: seq<seq<T>>, q2: seq<Query>, t: Trace<T>)
    ensures Prefixed(p1, q1, Prefixed(p2, q2, t)) == Prefixed(p1 + p2, q1 + q2, t)
  {
    assert p1 + (p2 + t.pages) == (p1 + p2) + t.pages;
    assert q1 + (q2 + t.queries) == (q1 + q2) + t.queries;
  }

  /** One response of the generator, read at position `i`. */
  lemma DriveStep<T>(pageSize: nat, w: Window, rs: seq<Response<T>>, i: nat, page: nat, retries: nat)
    requires i < |rs|
    ensures
      var q := Query(page, pageSize, w);
      var now := Drive(pageSize, w, rs[i..], page, retries);
      match ReadTokenTxPage(rs[i])
      case Page(txs) =>
        if |txs| < pageSize then now == Trace([txs], [q], Finished)
        else now == Prefixed([txs], [q], Drive(pageSize, w, rs[i + 1..], page + 1, 0))
      case NoTransactions(_) => now == Trace([], [q], Finished)
      case Failure(reason) =>
        if retries > DefaultRetries then now == Trace([], [q], Raised(reason))
        else now == Prefixed([], [q], Drive(pageSize, w, rs[i + 1..], page, retries + 1))
  {
    assert rs[i..][0] == rs[i];
    assert rs[i..][1..] == rs[i + 1..];
  }

  /** `readTokenTx`: request page after page, yield each page, stop after a
      short page or on `NoTransactionError`, retry a failed page and rethrow
      once the retry budget is spent. */
  method ReadTokenTx<T>(pageSize: nat, w: Window, responses: seq<Response<T>>) returns (t: Trace<T>)
    ensures t == Drive(pageSize, w, responses, 1, 0)
  {
    var page: nat, retries: nat, i := 1, 0, 0;
    var pages: seq<seq<T>>, queries: seq<Query> := [], [];
    assert responses[0..] == responses;
    while i < |responses|
      invariant 0 <= i <= |responses|
      invariant Drive(pageSize, w, responses, 1, 0) == Prefixed(pages, queries, Drive(pageSize, w, responses[i..], page, retries))
      decreases |responses| - i
    {
      var q := Query(page, pageSize, w);
      DriveStep(pageSize, w, responses, i, page, retries);
      match ReadTokenTxPage(responses[i]) {
      case Page(txs) =>
        if |txs| < pageSize {
          return Trace(pages + [txs], queries + [q], Finished);
        }
        PrefixedTwice(pages, queries, [txs], [q], Drive(pageSize, w, responses[i + 1..], page + 1, 0));
        pages, queries := pages + [txs], queries + [q];
        page, retries := page + 1, 0;
      case NoTransactions(_) =>
        return Trace(pages, queries + [q], Finished);
      case Failure(reason) =>
        if retries > DefaultRetries {
          return Trace(pages, queries + [q], Raised(reason));
        }
        PrefixedTwice(pages, queries, [], [q], Drive(pageSize, w, responses[i + 1..], page, retries + 1));
        assert pages + [] == pages;
        queries := queries + [q];
        retries := retries + 1;
      }
      i := i + 1;
    }
    assert responses[i..] == [];
    t := Trace(pages, queries, Pending);
  }

  /** The pages among a run of responses, in order. */
  function PagesOf<T>(rs: seq<Response<T>>): seq<seq<T>> {
    if rs == [] then []
    else
      var o := ReadTokenTxPage(rs[0]);
      (if o.Page? then [o.txs] else []) + PagesOf(rs[1..])
  }

  /** The `retries` counter after a run of responses starting from `retries`:
      a failure adds one, anything else resets it. */
  function RetriesAfter<T>(rs: seq<Response<T>>, retries: nat): nat {
    if rs == [] then retries
    else RetriesAfter(rs[1..], if ReadTokenTxPage(rs[0]).Failure? then retries + 1 else 0)
  }

  /** The counter is the length of the current run of failures: one more
      failure adds one, a page resets it. */
  lemma {:induction false} RetriesAfterAppend<T>(rs: seq<Response<T>>, retries: nat, x: Response<T>)
    ensures RetriesAfter(rs + [x], retries) ==
      if ReadTokenTxPage(x).Failure? then RetriesAfter(rs, retries) + 1 else 0
  {
    if rs != [] {
      assert (rs + [x])[1..] == rs[1..] + [x];
      RetriesAfterAppend(rs[1..], if ReadTokenTxPage(rs[0]).Failure? then retries + 1 else 0, x);
    }
  }

  /** A run stops only on a response it has read, and waits only when it has read them all. */
  lemma {:induction false} DriveConsumes<T>(pageSize: nat, w: Window, rs: seq<Response<T>>, page: nat, retries: nat)
    ensures |Drive(pageSize, w, rs, page, retries).queries| <= |rs|
    ensures Drive(pageSize, w, rs, page, retries).halt.Pending? ==> |Drive(pageSize, w, rs, page, retries).queries| == |rs|
    ensures !Drive(pageSize, w, rs, page, retries).halt.Pending? ==> |Drive(pageSize, w, rs, page, retries).queries| > 0
  {
    if rs != [] {
      var o := ReadTokenTxPage(rs[0]);
      if o.Page? && |o.txs| >= pageSize {
        DriveConsumes(pageSize, w, rs[1..], page + 1, 0);
      } else if o.Failure? && retries <= DefaultRetries {
        DriveConsumes(pageSize, w, rs[1..], page, retries + 1);
      }
    }
  }

  /** Every page the API returned among the responses read is yielded, in
      order, and none of them is empty. */
  lemma {:induction false} DriveYieldsEveryPage<T>(pageSize: nat, w: Window, rs: seq<Response<T>>, page: nat, retries: nat)
    ensures |Drive(pageSize, w, rs, page, retries).queries| <= |rs|
    ensures Drive(pageSize, w, rs, page, retries).pages == PagesOf(rs[..|Drive(pageSize, w, rs, page, retries).queries|])
    ensures forall k | 0 <= k < |Drive(pageSize, w, rs, page, retries).pages| :: |Drive(pageSize, w, rs, page, retries).pages[k]| > 0
  {
    DriveConsumes(pageSize, w, rs, page, retries);
    var t := Drive(pageSize, w, rs, page, retries);
    if rs != [] {
      var o := ReadTokenTxPage(rs[0]);
      var n := |t.queries|;
      assert rs[..n][0] == rs[0];
      assert rs[..n][1..] == rs[1..][..n - 1];
      if o.Page? && |o.txs| >= pageSize {
        DriveYieldsEveryPage(pageSize, w, rs[1..], page + 1, 0);
      } else if o.Failure? && retries <= DefaultRetries {
        DriveYieldsEveryPage(pageSize, w, rs[1..], page, retries + 1);
      } else {
        assert rs[..n][1..] == [];
      }
    }
  }

  /** Every request asks for pages of `pageSize` in the window, the first
      one for page `page`. */
  lemma {:induction false} DriveQueriesAsk<T>(pageSize: nat, w: Window, rs: seq<Response<T>>, page: nat, retries: nat)
    ensures forall k | 0 <= k < |Drive(pageSize, w, rs, page, retries).queries| ::
      Drive(pageSize, w, rs, page, retries).queries[k].offset == pageSize &&
      Drive(pageSize, w, rs, page, retries).queries[k].window == w
    ensures |Drive(pageSize, w, rs, page, retries).queries| > 0 ==> Drive(pageSize, w, rs, page, retries).queries[0].page == page
  {
    var t := Drive(pageSize, w, rs, page, retries);
    if rs != [] {
      var o := ReadTokenTxPage(rs[0]);
      if o.Page? && |o.txs| >= pageSize {
        var rest := Drive(pageSize, w, rs[1..], page + 1, 0);
        DriveQueriesAsk(pageSize, w, rs[1..], page + 1, 0);
        assert t.queries == [Query(page, pageSize, w)] + rest.queries;
      } else if o.Failure? && retries <= DefaultRetries {
        var rest := Drive(pageSize, w, rs[1..], page, retries + 1);
        DriveQueriesAsk(pageSize, w, rs[1..], page, retries + 1);
        assert t.queries == [Query(page, pageSize, w)] + rest.queries;
      }
    }
  }

  /** The page cursor moves on by one after a page and stays put after a
      failure, so a failed page is asked for again. */
  lemma {:induction false} DriveQueries<T>(pageSize: nat, w: Window, rs: seq<Response<T>>, page: nat, retries: nat)
    ensures |Drive(pageSize, w, rs, page, retries).queries| <= |rs|
    ensures forall k | 0 <= k < |Drive(pageSize, w, rs, page, retries).queries| - 1 ::
      Drive(pageSize, w, rs, page, retries).queries[k + 1].page ==
      Drive(pageSize, w, rs, page, retries).queries[k].page + (if ReadTokenTxPage(rs[k]).Page? then 1 else 0)
  {
    DriveConsumes(pageSize, w, rs, page, retries);
    var t := Drive(pageSize, w, rs, page, retries);
    if rs != [] {
      var o := ReadTokenTxPage(rs[0]);
      if (o.Page? && |o.txs| >= pageSize) || (o.Failure? && retries <= DefaultRetries) {
        var next, again := if o.Page? then page + 1 else page, if o.Page? then 0 else retries + 1;
        var rest := Drive(pageSize, w, rs[1..], next, again);
        assert t.queries == [Query(page, pageSize, w)] + rest.queries;
        DriveQueries(pageSize, w, rs[1..], next, again);
        DriveQueriesAsk(pageSize, w, rs[1..], next, again);
        forall k | 0 <= k < |t.queries| - 1
          ensures t.queries[k + 1].page == t.queries[k].page + (if ReadTokenTxPage(rs[k]).Page? then 1 else 0)
        {
          if k > 0 {
            assert rs[k] == rs[1..][k - 1];
          }
        }
      }
    }
  }

  /** Before the last request, every response read was a full page or a
      failure that the retry budget still covered. */
  lemma {:induction false} DriveContinues<T>(pageSize: nat, w: Window, rs: seq<Response<T>>, page: nat, retries: nat)
    ensures |Drive(pageSize, w, rs, page, retries).queries| <= |rs|
    ensures forall k | 0 <= k < |Drive(pageSize, w, rs, page, retries).queries| - 1 ::
      (ReadTokenTxPage(rs[k]).Page? && |ReadTokenTxPage(rs[k]).txs| >= pageSize) ||
      (ReadTokenTxPage(rs[k]).Failure? && RetriesAfter(rs[..k], retries) <= DefaultRetries)
  {
    DriveConsumes(pageSize, w, rs, page, retries);
    var t := Drive(pageSize, w, rs, page, retries);
    if rs != [] {
      var o := ReadTokenTxPage(rs[0]);
      var next := if o.Failure? then retries + 1 else 0;
      forall k | 1 <= k < |t.queries| ensures rs[..k][1..] == rs[1..][..k - 1] && rs[..k][0] == rs[0] { }
      if o.Page? && |o.txs| >= pageSize {
        DriveContinues(pageSize, w, rs[1..], page + 1, 0);
      } else if o.Failure? && retries <= DefaultRetries {
        DriveContinues(pageSize, w, rs[1..], page, retries + 1);
      }
    }
  }

  /** A run ends normally only on "no transactions" or a short page, and
      throws only the error of a failure that came when the counter already
      exceeded the retry budget. */
  lemma {:induction false} DriveHalts<T>(pageSize: nat, w: Window, rs: seq<Response<T>>, page: nat, retries: nat)
    ensures Drive(pageSize, w, rs, page, retries).halt.Finished? ==>
      var n := |Drive(pageSize, w, rs, page, retries).queries|;
      && 0 < n <= |rs|
      && (ReadTokenTxPage(rs[n - 1]).NoTransactions? ||
          (ReadTokenTxPage(rs[n - 1]).Page? && |ReadTokenTxPage(rs[n - 1]).txs| < pageSize))
    ensures Drive(pageSize, w, rs, page, retries).halt.Raised? ==>
      var n := |Drive(pageSize, w, rs, page, retries).queries|;
      && 0 < n <= |rs|
      && ReadTokenTxPage(rs[n - 1]) == Failure(Drive(pageSize, w, rs, page, retries).halt.reason)
      && RetriesAfter(rs[..n - 1], retries) > DefaultRetries
  {
    DriveConsumes(pageSize, w, rs, page, retries);
    var t := Drive(pageSize, w, rs, page, retries);
    if rs != [] {
      var o := ReadTokenTxPage(rs[0]);
      var n := |t.queries|;
      if n > 1 {
        assert rs[..n - 1][0] == rs[0];
        assert rs[..n - 1][1..] == rs[1..][..n - 2];
        assert rs[n - 1] == rs[1..][n - 2];
      }
      if o.Page? && |o.txs| >= pageSize {
        DriveHalts(pageSize, w, rs[1..], page + 1, 0);
      } else if o.Failure? && retries <= DefaultRetries {
        DriveHalts(pageSize, w, rs[1..], page, retries + 1);
      }
    }
  }

  /** Whether the generator, its failure counter at `counter`, goes on past
      response `r`: a full page, or a failure the retry budget still covers. */
  predicate Continues<T>(pageSize: nat, r: Response<T>, counter: nat) {
    var o := ReadTokenTxPage(r);
    (o.Page? && |o.txs| >= pageSize) || (o.Failure? && counter <= DefaultRetries)
  }

  /** The counter the generator holds after the first response. */
  lemma RetriesAfterFirst<T>(rs: seq<Response<T>>, retries: nat, i: nat)
    requires 0 < i <= |rs|
    ensures RetriesAfter(rs[..i], retries) ==
      RetriesAfter(rs[1..][..i - 1], if ReadTokenTxPage(rs[0]).Failure? then retries + 1 else 0)
  {
    assert rs[..i][0] == rs[0] && rs[..i][1..] == rs[1..][..i - 1];
  }

  /** Conversely to `DriveContinues` and `DriveHalts`: when response `k` is
      the first one the generator does not go past, it has made exactly
      `k + 1` requests and stops there, returning after "no transactions" or
      a short page and throwing the error of a failure beyond the budget. */
  lemma {:induction false} DriveStopsAt<T>(pageSize: nat, w: Window, rs: seq<Response<T>>, page: nat, retries: nat, k: nat)
    requires k < |rs|
    requires forall i | 0 <= i < k :: Continues(pageSize, rs[i], RetriesAfter(rs[..i], retries))
    requires !Continues(pageSize, rs[k], RetriesAfter(rs[..k], retries))
    ensures |Drive(pageSize, w, rs, page, retries).queries| == k + 1
    ensures Drive(pageSize, w, rs, page, retries).halt ==
      if ReadTokenTxPage(rs[k]).Failure? then Raised(ReadTokenTxPage(rs[k]).reason) else Finished
  {
    assert rs[..0] == [];
    if k > 0 {
      var o := ReadTokenTxPage(rs[0]);
      var next := if o.Failure? then retries + 1 else 0;
      assert Continues(pageSize, rs[0], retries);
      forall i | 0 <= i < k - 1
        ensures Continues(pageSize, rs[1..][i], RetriesAfter(rs[1..][..i], next))
      {
        RetriesAfterFirst(rs, retries, i + 1);
        assert Continues(pageSize, rs[i + 1], RetriesAfter(rs[..i + 1], retries));
      }
      RetriesAfterFirst(rs, retries, k);
      DriveStopsAt(pageSize, w, rs[1..], if o.Page? then page + 1 else page, next, k - 1);
    }
  }

  /** When the generator goes past every response it has been given, it has
      requested once per response and is still waiting for the next. */
  lemma {:induction false} DriveWaits<T>(pageSize: nat, w: Window, rs: seq<Response<T>>, page: nat, retries: nat)
    requires forall i | 0 <= i < |rs| :: Continues(pageSize, rs[i], RetriesAfter(rs[..i], retries))
    ensures |Drive(pageSize, w, rs, page, retries).queries| == |rs|
    ensures Drive(pageSize, w, rs, page, retries).halt == Pending
  {
    if rs != [] {
      var o := ReadTokenTxPage(rs[0]);
      var next := if o.Failure? then retries + 1 else 0;
      assert rs[..0] == [];
      assert Continues(pageSize, rs[0], retries);
      forall i | 0 <= i < |rs| - 1
        ensures Continues(pageSize, rs[1..][i], RetriesAfter(rs[1..][..i], next))
      {
        RetriesAfterFirst(rs, retries, i + 1);
        assert Continues(pageSize, rs[i + 1], RetriesAfter(rs[..i + 1], retries));
      }
      DriveWaits(pageSize, w, rs[1..], if o.Page? then page + 1 else page, next);
    }
  }

  /** A run of `j` failures that the budget covers re-requests the same page
      `j` times and hands the raised counter on. */
  lemma {:induction false} DriveAfterFailures<T>(pageSize: nat, w: Window, rs: seq<Response<T>>, page: nat, retries: nat, j: nat)
    requires j <= |rs| && retries + j <= DefaultRetries + 1
    requires forall i | 0 <= i < j :: ReadTokenTxPage(rs[i]).Failure?
    ensures Drive(pageSize, w, rs, page, retries) ==
      Prefixed([], seq(j, _ => Query(page, pageSize, w)), Drive(pageSize, w, rs[j..], page, retries + j))
  {
    if j > 0 {
      DriveAfterFailures(pageSize, w, rs[1..], page, retries + 1, j - 1);
      assert rs[1..][j - 1..] == rs[j..];
      assert [Query(page, pageSize, w)] + seq(j - 1, _ => Query(page, pageSize, w)) == seq(j, _ => Query(page, pageSize, w));
    } else {
      assert rs[0..] == rs;
    }
  }

  /** The seventh consecutive failure of the first page is rethrown, after
      seven requests for page 1 and no page yielded. */
  lemma SeventhFailureRaises<T>(pageSize: nat, w: Window, rs: seq<Response<T>>)
    requires |rs| >= 7
    requires forall i | 0 <= i < 7 :: ReadTokenTxPage(rs[i]).Failure?
    ensures Drive(pageSize, w, rs, 1, 0) ==
      Trace([], seq(7, _ => Query(1, pageSize, w)), Raised(ReadTokenTxPage(rs[6]).reason))
  {
    DriveAfterFailures(pageSize, w, rs, 1, 0, 6);
    assert rs[6..][0] == rs[6];
    assert seq(6, _ => Query(1, pageSize, w)) + [Query(1, pageSize, w)] == seq(7, _ => Query(1, pageSize, w));
  }

  /** Up to six failures of one page are retried: the page that then arrives
      is yielded first, after `k + 1` requests for page 1. */
  lemma RetriedFailuresRecover<T>(pageSize: nat, w: Window, rs: seq<Response<T>>, k: nat)
    requires k <= DefaultRetries + 1 && k < |rs|
    requires forall i | 0 <= i < k :: ReadTokenTxPage(rs[i]).Failure?
    requires ReadTokenTxPage(rs[k]).Page?
    ensures |Drive(pageSize, w, rs, 1, 0).queries| > k
    ensures forall i | 0 <= i <= k :: Drive(pageSize, w, rs, 1, 0).queries[i] == Query(1, pageSize, w)
    ensures |Drive(pageSize, w, rs, 1, 0).pages| > 0 && Drive(pageSize, w, rs, 1, 0).pages[0] == ReadTokenTxPage(rs[k]).txs
  {
    DriveAfterFailures(pageSize, w, rs, 1, 0, k);
    assert rs[k..][0] == rs[k];
  }
}
