/** `src/ethereum/etherscan.ts`: the second copy of the Etherscan client,
    identical to `src/etherscan/index.ts` except that it asks for 500
    transactions per page, so a short page ends the walk. */
module EthereumEtherscan {
  import opened EtherscanApi

  const DefaultPageSize: nat := 500

  function FullPageQueries(w: Window, page: nat, k: nat): seq<Query> {
    seq(k, (i: nat) => Query(page + i, DefaultPageSize, w))
  }

  /** `k` full pages followed by a short one: all `k + 1` pages are yielded,
      the short one included, on consecutive page numbers, and the walk then
      returns without another request. */
  lemma {:induction false} ShortPageEndsWalk<T>(w: Window, rs: seq<Response<T>>, page: nat, retries: nat, k: nat)
    requires k < |rs|
    requires forall i | 0 <= i < k :: ReadTokenTxPage(rs[i]).Page? && |ReadTokenTxPage(rs[i]).txs| >= DefaultPageSize
    requires ReadTokenTxPage(rs[k]).Page? && |ReadTokenTxPage(rs[k]).txs| < DefaultPageSize
    ensures Drive(DefaultPageSize, w, rs, page, retries) ==
      Trace(PagesOf(rs[..k + 1]), FullPageQueries(w, page, k + 1), Finished)
  {
    if k == 0 {
      assert rs[..1][1..] == [];
    } else {
      ShortPageEndsWalk(w, rs[1..], page + 1, 0, k - 1);
      assert rs[..k + 1][1..] == rs[1..][..k];
      assert [Query(page, DefaultPageSize, w)] + FullPageQueries(w, page + 1, k) == FullPageQueries(w, page, k + 1);
    }
  }
}
