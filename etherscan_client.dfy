/** `src/etherscan/index.ts`: the Etherscan client the relay and the survey
    script use. Its generator asks for one transaction per page. */
module EtherscanClient {
  import opened EtherscanApi

  const DefaultPageSize: nat := 1

  /** With pages of one, every page the API can return is full, so the
      short-page exit never fires: a run ends normally only on "no
      transactions". */
  lemma NoShortPageExit<T>(w: Window, rs: seq<Response<T>>)
    ensures Drive(DefaultPageSize, w, rs, 1, 0).halt.Finished? ==>
      var n := |Drive(DefaultPageSize, w, rs, 1, 0).queries|;
      0 < n <= |rs| && ReadTokenTxPage(rs[n - 1]).NoTransactions?
  {
    DriveHalts(DefaultPageSize, w, rs, 1, 0);
  }
}
